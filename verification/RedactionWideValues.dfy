/** Which inputs keep an assignment unmasked. */
module RedactionWideValues {
  import opened Optional
  import opened Redaction
  import opened RedactionNeedles
  import opened RedactionMasks
  import opened RedactionTwice
  import opened RedactionFusion
  import opened RedactionReading
  import opened RedactionSpaces
  import opened RedactionLeftovers

  // ---- rewritten places ----

  lemma SpacedHead(z: string)
    requires AsciiSpaced(z)
    ensures AssignmentHead(Spaced(z)) == AssignmentHead(z)
  {
    hide NameTail, FirstWord, Spaced, AsciiSpaced;
    SpacedWord(z);
    match FirstWord(ASSIGNMENT_NAMES, z)
    case None =>
    case Some(w) =>
      SpacedParts(z, |w|);
      AsciiDrop(z, |w|);
      SpacedTail(z[|w|..]);
  }

  lemma SpacedWord(z: string)
    ensures FirstWord(ASSIGNMENT_NAMES, Spaced(z)) == FirstWord(ASSIGNMENT_NAMES, z)
  {
    hide FirstWord, Spaced, IsWhite;
    forall w | w in ASSIGNMENT_NAMES ensures StartsWith(Spaced(z), w) <==> StartsWith(z, w) {
      NameSolid(w);
      SpaceIs();
      if StartsWith(z, w) { WordChars(z, w); assert Spaced(z)[..|w|] == w; }
      if StartsWith(Spaced(z), w) { WordChars(Spaced(z), w); SpacedSame(z, w); }
    }
    if FirstWord(ASSIGNMENT_NAMES, z).Some? {
      FirstWordIs(Spaced(z), FirstWord(ASSIGNMENT_NAMES, z).value);
    }
  }

  /** Only a space can have been another character. */
  lemma SpacedSame(z: string, w: string)
    requires |w| <= |z| && ' ' !in w && forall j :: 0 <= j < |w| ==> Spaced(z)[j] == w[j]
    ensures z[..|w|] == w
  {
    hide Spaced, IsWhite;
    forall j | 0 <= j < |w| ensures z[j] == w[j] {
      assert w[j] in w;
    }
  }

  lemma SpacedSpaces(t: string)
    requires AsciiSpaced(t)
    ensures RunLen(Space, Spaced(t)) == RunLen(Space, t)
  {
    hide RunLen, Spaced, AsciiSpaced;
    AsciiRun(t);
    SpacedAscii(t);
    AsciiRun(Spaced(t));
    SpacedRun(t);
  }

  lemma SpacedTail(t: string)
    requires AsciiSpaced(t)
    ensures NameTail(Spaced(t)) == NameTail(t)
  {
    hide NameTail, OpeningLen, RunLen, Spaced, AsciiSpaced, In;
    NameTailOpening(t);
    NameTailOpening(Spaced(t));
    SpacedSpaces(t);
    var m := RunLen(Space, t);
    if m < |t| {
      SpacedClass(t[m]);
      SpacedParts(t, m + 1);
      AsciiDrop(t, m + 1);
      SpacedOpening(t[m + 1..]);
    }
  }

  lemma SpacedOpening(u: string)
    requires AsciiSpaced(u)
    ensures OpeningLen(Spaced(u)) == OpeningLen(u)
  {
    hide RunLen, Spaced, AsciiSpaced, In;
    SpacedSpaces(u);
    var q := RunLen(Space, u);
    if q < |u| { SpacedClass(u[q]); }
  }

  lemma SpacedClass(c: char)
    ensures var d := if IsWhite(c) then ' ' else c;
            (In(Marker, d) <==> In(Marker, c)) && (In(Quote, d) <==> In(Quote, c))
            && (In(ValueChar, d) <==> In(ValueChar, c) && !IsWhite(c))
  {
  }

  lemma HeadAscii(s: string, n: nat)
    requires AssignmentHead(s) == Some(n)
    ensures AsciiSpaced(s[..n] + "[")
  {
    hide NameTail, FirstWord;
    var w := FirstWord(ASSIGNMENT_NAMES, s).value;
    NameUnderscore(w);
    WordChars(s, w);
    NameTailChars(s[|w|..], n - |w|);
    forall k | 0 <= k < n ensures IsWhite(s[k]) ==> IsSpace(s[k]) {
      if k >= |w| { assert s[|w|..][k - |w|] == s[k]; }
    }
  }

  /** The head of a rewritten assignment is found in the spaced text. */
  lemma SpacedCoverHead(s: string, n: nat, t: string)
    requires AssignmentHead(s) == Some(n) && t != "" && t[0] == '['
    ensures AssignmentHead(Spaced(s[..n]) + t) == Some(n)
  {
    hide AssignmentHead, Spaced, AsciiSpaced;
    var z := s[..n] + "[";
    assert z[..n] == s[..n];
    AssignmentHeadLocal(z, s, n);
    HeadAscii(s, n);
    SpacedHead(z);
    SpacedParts(z, n);
    var full := Spaced(s[..n]) + t;
    assert full[..n] == Spaced(z)[..n];
    AssignmentHeadLocal(full, Spaced(z), n);
  }

  /** What follows a rewritten value ends it. */
  lemma CoverEnds(s: string, c: Cover)
    requires CoverAt(s) == Some(c) && Assigned(s) == Some(c)
    ensures EndsValue(Spaced(c.after + Fused(s[c.end..], 0)))
  {
    hide CoverAt, Assigned, Fused, ValueOf, Spaced, In, Find;
    CoverAfter(s, c);
    var f := Fused(s[c.end..], 0);
    if c.after != "" {
      assert (c.after + f)[0] == c.after[0];
      SpaceEnds(c.after[0]);
    } else {
      assert c.after + f == f;
      var at := AssignedFrom(s, c);
      AfterChars(s[at..]);
      if c.end < |s| {
        assert s[at..][ValueOf(s[at..]).len] == s[c.end] == s[c.end..][0];
        FusedFirst(s[c.end..]);
        if Find(KeyValue, s[c.end..]).Some? { HitStart(KeyValue, s[c.end..]); KeyStartIsValue(s[c.end]); }
        SpacedClass(s[c.end]);
      } else {
        FusedFirst(s[c.end..]);
      }
    }
  }

  lemma SpaceEnds(c: char)
    requires IsSpace(c)
    ensures IsWhite(c) && !In(ValueChar, ' ')
  {
  }

  lemma KeyStartIsValue(c: char)
    requires CanStartHit(KeyValue, c)
    ensures In(ValueChar, c) && !IsSpace(c) && !IsWhite(c) && !In(Quote, c)
  {
  }

  lemma AssignedMasked(s: string, c: Cover, m: nat, t: string)
    requires CoverAt(s) == Some(c) && Assigned(s) == Some(c)
    requires t == PLACEHOLDER + Spaced(c.after + Fused(s[c.end..], 0)) && AllMasked(Assignment, t)
    ensures AllMasked(Assignment, Spaced(Rest(s, m, c.keep)) + t)
  {
    hide CoverAt, Assigned, Fused, Spaced, AllMasked, AssignmentHead, CanStartHit, EndsValue, RunLen;
    var x := AssignedText(s, c);
    AssignmentHeadChars(s, c.keep);
    if m > 0 {
      NoNameBehind(Rest(s, m, c.keep), t);
    } else {
      assert Rest(s, 0, c.keep) == s[..c.keep];
      CoverEnds(s, c);
      SpacedHeadMasked(s, c.keep, Spaced(c.after + Fused(s[c.end..], 0)));
    }
  }

  lemma SpacedHeadMasked(s: string, n: nat, u: string)
    requires AssignmentHead(s) == Some(n) && n <= |s| && (forall k :: 0 < k < n ==> s[k] != 'F')
    requires EndsValue(u) && AllMasked(Assignment, PLACEHOLDER + u)
    ensures AllMasked(Assignment, Spaced(s[..n]) + (PLACEHOLDER + u))
  {
    hide Spaced, AllMasked, AssignmentHead, EndsValue;
    var w, t := s[..n], PLACEHOLDER + u;
    var full := Spaced(w) + t;
    SpacedCoverHead(s, n, t);
    assert full[n..] == t;
    MaskedAssignment(full, n, u);
    SpacedParts(w, 1);
    assert full[1..] == Spaced(w[1..]) + t;
    NoNameBehind(w[1..], t);
    MaskedHere(Assignment, full);
  }

  lemma NoNameBehind(w: string, t: string)
    requires AllMasked(Assignment, t) && forall k :: 0 <= k < |w| ==> w[k] != 'F'
    ensures AllMasked(Assignment, Spaced(w) + t)
  {
    hide Spaced, AllMasked, IsWhite;
    AllMaskedBehind(Assignment, Spaced(w), t);
  }

  lemma NoF(c: char)
    requires c in "Bearer" || IsSpace(c) || c in PLACEHOLDER || c == '@'
    ensures c != 'F'
  {
  }

  lemma AfterNoF(s: string, c: Cover)
    requires CoverAt(s) == Some(c)
    ensures forall k :: 0 <= k < |c.after| ==> c.after[k] != 'F'
  {
    hide CoverAt, IsSpace;
    CoverAfter(s, c);
    forall k | 0 <= k < |c.after| ensures c.after[k] != 'F' { NoF(c.after[k]); }
  }

  lemma CoverMasked(s: string, c: Cover, m: nat, t: string)
    requires CoverAt(s) == Some(c) && t == PLACEHOLDER + Spaced(c.after + Fused(s[c.end..], 0)) && AllMasked(Assignment, t)
    ensures AllMasked(Assignment, Spaced(Rest(s, m, c.keep)) + t)
  {
    hide CoverAt, Assigned, Fused, Spaced, AllMasked, Find, UrlHead;
    CoverCases(s, c);
    var w := Rest(s, m, c.keep);
    if Assigned(s) == Some(c) {
      AssignedMasked(s, c, m, t);
    } else if Find(Bearer, s) == Some(Hit(c.keep, c.end)) {
      BearerShape(s, Hit(c.keep, c.end));
      forall k | 0 <= k < |w| ensures w[k] != 'F' { NoF(w[k]); }
      NoNameBehind(w, t);
    } else {
      UrlHitShape(s, Hit(c.keep, c.end));
      if m <= c.keep {
        NoNameInScheme(s, c.keep, m, t);
        HeadSolid(s, c.keep);
        SpacedSolid(w);
      } else {
        NoNameBehind(w, t);
      }
    }
  }

  lemma HeadSolid(s: string, n: nat)
    requires UrlHead(s) == Some(n)
    ensures n <= |s| && forall k :: 0 <= k < n ==> !IsWhite(s[k])
  {
    hide UrlHead;
    SchemeShape(s, n);
    forall k | 0 <= k < n ensures !IsWhite(s[k]) {
      if k < n - 3 { assert In(SchemeChar, s[k]); }
    }
  }

  /** A rewritten place leaves no assignment unmasked, and hides none behind it. */
  lemma CoverValues(s: string, c: Cover, m: nat)
    requires CoverAt(s) == Some(c)
    ensures var f := Fused(s[c.end..], 0);
            AllMasked(Assignment, Spaced(Rest(s, m, c.keep) + (PLACEHOLDER + (c.after + f)))) <==> AllMasked(Assignment, Spaced(f))
  {
    hide CoverAt, Fused, Spaced, AllMasked;
    var f, w := Fused(s[c.end..], 0), Rest(s, m, c.keep);
    SpacedAround(w, c.after, f);
    SpacedJoin(c.after, f);
    var t := PLACEHOLDER + (Spaced(c.after) + Spaced(f));
    var all := Spaced(w) + t;
    if AllMasked(Assignment, all) {
      AllMaskedDrop(Assignment, all, |all| - |f|);
      assert all[|all| - |f|..] == Spaced(f);
    }
    if AllMasked(Assignment, Spaced(f)) {
      AfterNoF(s, c);
      NoNameBehind(c.after, Spaced(f));
      AllMaskedBehind(Assignment, PLACEHOLDER, Spaced(c.after) + Spaced(f));
      CoverMasked(s, c, m, t);
    }
  }

  // ---- untouched places ----

  /** An assignment whose tail may hold any whitespace, as the spaced text shows it. */
  predicate WideHead(s: string, n: nat) {
    AssignmentHead(Spaced(s)) == Some(n) && n < |s| && In(ValueChar, Spaced(s)[n])
  }

  lemma WideHeadIs(s: string)
    ensures Find(Assignment, Spaced(s)).Some? ==> WideHead(s, Find(Assignment, Spaced(s)).value.keep)
    ensures forall n: nat :: WideHead(s, n) ==> Find(Assignment, Spaced(s)).Some? && Find(Assignment, Spaced(s)).value.keep == n
  {
    hide Spaced, AssignmentHead, RunLen, In;
    if Find(Assignment, Spaced(s)).Some? { var n := ValueAt(Spaced(s)); }
    forall n: nat | WideHead(s, n)
      ensures Find(Assignment, Spaced(s)).Some? && Find(Assignment, Spaced(s)).value.keep == n
    {
      assert Spaced(s)[n..][0] == Spaced(s)[n];
      RunAtLeastOne(ValueChar, Spaced(s)[n..]);
    }
  }

  /** `s` starts with a name and then, up to `n`, whitespace of any kind, markers and quotes. */
  predicate WideText(s: string, w: string, n: nat) {
    && w in ASSIGNMENT_NAMES && StartsWith(s, w) && |w| < n <= |s|
    && forall k :: |w| <= k < n ==> !IsLetter(s[k]) && !In(SchemeChar, s[k])
  }

  lemma WideHeadText(s: string, n: nat) returns (w: string)
    requires AssignmentHead(Spaced(s)) == Some(n)
    ensures WideText(s, w, n)
  {
    hide Spaced, NameTail, FirstWord, In, IsLetter, IsWhite, IsSpace;
    var z := Spaced(s);
    w := FirstWord(ASSIGNMENT_NAMES, z).value;
    NameSolid(w);
    WordChars(z, w);
    SpacedSame(s, w);
    NameTailChars(z[|w|..], n - |w|);
    forall k | |w| <= k < n ensures !IsLetter(s[k]) && !In(SchemeChar, s[k]) {
      assert z[|w|..][k - |w|] == z[k];
      TailLetter(s[k]);
    }
  }

  lemma TailLetter(c: char)
    ensures var d := if IsWhite(c) then ' ' else c;
            IsSpace(d) || In(Marker, d) || In(Quote, d) ==> !IsLetter(c) && !In(SchemeChar, c)
  {
  }

  lemma NameQuiet(s: string, w: string, n: nat, k: nat)
    requires WideText(s, w, n) && CoverAt(s).None? && k < |w|
    ensures Quiet(s[k..])
  {
    hide CoverAt, Find, StartsWith, In, IsLetter, PlainName;
    WordChars(s, w);
    NameUnderscore(w);
    NameChars(w);
    NameIsPlain(s, w);
    var t := s[k..];
    assert t[0] == w[k];
    NoKeyChar(w[k]);
    NoHitAt(KeyValue, s, k);
    if k > 0 {
      NoBearerInName(s, w, k);
      NoUrlInName(s, w, k);
      NothingCovers(t);
    } else {
      assert t == s;
    }
  }

  lemma NothingCovers(t: string)
    requires t != "" && t[0] != 'F' && Find(Bearer, t).None? && Find(UrlUserinfo, t).None?
    ensures CoverAt(t).None?
  {
    hide Assigned, Find;
    if Assigned(t).Some? { AssignedStart(t); }
  }

  lemma NameIsPlain(s: string, w: string)
    requires w in ASSIGNMENT_NAMES && StartsWith(s, w) && CoverAt(s).None?
    ensures PlainName(s, w)
  {
    hide Find, ValueOf, NameTail, FirstWord;
    NameUnderscore(w);
    FirstWordIs(s, w);
  }

  lemma WideTextQuiet(s: string, w: string, n: nat, k: nat)
    requires WideText(s, w, n) && CoverAt(s).None? && k < n
    ensures n <= |s| && Quiet(s[k..])
  {
    hide CoverAt, IsLetter, In, StartsWith, Quiet;
    if k < |w| { NameQuiet(s, w, n, k); } else { NoLetterQuiet(s[k..]); }
  }

  lemma WideTextLong(s: string, w: string, n: nat)
    requires WideText(s, w, n)
    ensures 0 < n <= |s|
  {
  }

  lemma WideTextCopied(s: string, w: string, n: nat)
    requires WideText(s, w, n) && CoverAt(s).None?
    ensures n <= |s| && Fused(s, 0) == s[..n] + Fused(s[n..], 0)
  {
    hide *;
    WideTextLong(s, w, n);
    forall k | 0 <= k < n ensures Quiet(s[k..]) { WideTextQuiet(s, w, n, k); }
    QuietCopied(s, n);
  }

  /** Masking copies the head of an assignment that it does not mask. */
  lemma WideHeadCopied(s: string, n: nat)
    requires AssignmentHead(Spaced(s)) == Some(n) && CoverAt(s).None?
    ensures n <= |s| && Fused(s, 0) == s[..n] + Fused(s[n..], 0)
    ensures Spaced(Fused(s, 0)) == Spaced(s)[..n] + Spaced(Fused(s[n..], 0))
  {
    hide *;
    var w := WideHeadText(s, n);
    WideTextCopied(s, w, n);
    SpacedParts(s, n);
    SpacedJoin(s[..n], Fused(s[n..], 0));
  }

  /** What `Fused` writes first when `m` characters are skipped that end a run of key characters. */
  lemma {:induction false} FusedOver(t: string, m: nat)
    requires m == RunLen(KeyChar, t)
    ensures Fused(t, m) == "" <==> m == |t|
    ensures m < |t| ==> Fused(t, m)[0] == t[m]
    decreases |t|
  {
    hide Fused, CoverAt, Find, In;
    FusedStep(t, m);
    if t == "" {
    } else if CoverAt(t).Some? {
      CoverKeyRun(t, CoverAt(t).value);
      assert Rest(t, m, CoverAt(t).value.keep)[0] == t[m];
    } else if m > 0 {
      FusedOver(t[1..], m - 1);
    } else {
      NoKeyRunNoKey(t);
    }
  }

  lemma NoKeyRunNoKey(t: string)
    requires RunLen(KeyChar, t) == 0
    ensures Find(KeyValue, t).None?
  {
    hide Find, RunLen;
    if Find(KeyValue, t).Some? { KeyFindOver(t, t); }
  }

  lemma StopsSpaced(u: string, f: string)
    requires (f == "" <==> u == "") && (u != "" ==> f[0] == u[0])
    ensures EndsValue(Spaced(f)) <==> Stops(u)
  {
    hide In, Spaced, IsWhite;
    if u != "" { SpacedClass(u[0]); }
  }

  /** A value that is a key value reads as the placeholder when nothing of the value follows it. */
  lemma KeyReads(t: string)
    requires Find(KeyValue, t).Some?
    ensures var u := Fused(t[1..], Find(KeyValue, t).value.end - 1);
            Spaced(Fused(t, 0)) == PLACEHOLDER + Spaced(u) && (EndsValue(Spaced(u)) <==> ReadsPlaceholder(t))
  {
    hide Fused, CoverAt, Find, RunLen, In, Spaced, Stops, EndsValue;
    if CoverAt(t).Some? { CoverNoKey(t); }
    FusedStep(t, 0);
    KeyFindOver(t, t);
    var r := RunLen(KeyChar, t);
    var u := Fused(t[1..], r - 1);
    RunTail(KeyChar, t);
    FusedOver(t[1..], r - 1);
    StopsSpaced(t[r..], u);
    SpacedJoin(PLACEHOLDER, u);
    PlaceholderSolid();
    SpacedSolid(PLACEHOLDER);
  }

  lemma RunTail(cls: CharClass, t: string)
    requires RunLen(cls, t) > 0
    ensures RunLen(cls, t[1..]) == RunLen(cls, t) - 1
  {
  }

  lemma PlaceholderQuiet(k: nat, u: string)
    requires k < |PLACEHOLDER|
    ensures Quiet(PLACEHOLDER[k..] + u)
  {
    hide CoverAt, Find, CanStartHit, IsLetter;
    var t := PLACEHOLDER[k..] + u;
    assert t[0] == PLACEHOLDER[k];
    PlaceholderStarts();
    assert t[0..] == t;
    NoHitAt(KeyValue, t, 0);
    NoHitAt(Bearer, t, 0);
    NoUrlInPlaceholder(k, u);
    NothingCovers(t);
  }

  lemma PlaceholderStarts()
    ensures forall k :: 0 <= k < |PLACEHOLDER| ==>
              PLACEHOLDER[k] != 'F' && !CanStartHit(KeyValue, PLACEHOLDER[k]) && !CanStartHit(Bearer, PLACEHOLDER[k])
  {
  }

  lemma PlaceholderFused(u: string)
    ensures Fused(PLACEHOLDER + u, 0) == PLACEHOLDER + Fused(u, 0)
  {
    hide Fused, Quiet;
    forall k | 0 <= k < |PLACEHOLDER| ensures Quiet(PLACEHOLDER[k..] + u) {
      PlaceholderQuiet(k, u);
    }
    FusedBehind(PLACEHOLDER, u);
  }

  /** A placeholder in spaced, masked text that is no masked key value was there before. */
  lemma PlaceholderWasThere(t: string)
    requires Find(KeyValue, t).None? && StartsWith(Spaced(Fused(t, 0)), PLACEHOLDER)
    ensures StartsWith(t, PLACEHOLDER)
  {
    hide Fused, Find, Spaced, CoverAt, IsLetter;
    var f := Fused(t, 0);
    WordChars(Spaced(f), PLACEHOLDER);
    SpacedSame(f, PLACEHOLDER);
    FusedFirst(t);
    BracketIsValue();
    NoLetterQuiet(t);
    FusedStep(t, 0);
    var g := Fused(t[1..], 0);
    assert g == f[1..] && f[..10][1..] == g[..9];
    NoBracketLater(g[..9]);
    FusedLead(t[1..], 9);
    assert t == [t[0]] + t[1..];
    assert t[..10] == [t[0]] + t[1..][..9];
  }

  lemma NoBracketLater(g: string)
    requires g == PLACEHOLDER[1..]
    ensures '[' !in g
  {
  }

  lemma PlaceholderReads(t: string)
    requires StartsWith(t, PLACEHOLDER) && Find(KeyValue, t).None?
    ensures var u := Fused(t[10..], 0);
            Spaced(Fused(t, 0)) == PLACEHOLDER + Spaced(u) && (EndsValue(Spaced(u)) <==> ReadsPlaceholder(t))
  {
    hide Fused, Find, Spaced, Stops, EndsValue;
    var v := t[10..];
    assert t == PLACEHOLDER + v;
    PlaceholderFused(v);
    var u := Fused(v, 0);
    SpacedJoin(PLACEHOLDER, u);
    PlaceholderSolid();
    SpacedSolid(PLACEHOLDER);
    FusedFirst(v);
    if Find(KeyValue, v).Some? {
      KeyEndsNothing(v, u);
    } else {
      StopsSpaced(v, u);
    }
  }

  lemma KeyEndsNothing(v: string, u: string)
    requires Find(KeyValue, v).Some? && u != "" && u[0] == '['
    ensures !Stops(v) && !EndsValue(Spaced(u))
  {
    hide Find, Spaced;
    HitStart(KeyValue, v);
    KeyStartIsValue(v[0]);
  }

  /** The spaced, masked text of `t` starts with a value that is just the placeholder. */
  ghost predicate ShowsPlaceholder(t: string) {
    exists u :: Spaced(Fused(t, 0)) == PLACEHOLDER + u && EndsValue(u)
  }

  lemma ShowsIff(t: string)
    ensures ShowsPlaceholder(t) <==> ReadsPlaceholder(t)
  {
    hide Fused, Find, Spaced, Stops, EndsValue;
    if Find(KeyValue, t).Some? {
      KeyReads(t);
      SameRest(t, Spaced(Fused(t[1..], Find(KeyValue, t).value.end - 1)));
    } else if StartsWith(t, PLACEHOLDER) {
      PlaceholderReads(t);
      SameRest(t, Spaced(Fused(t[10..], 0)));
    } else if ShowsPlaceholder(t) {
      PlaceholderWasThere(t);
    }
  }

  lemma SameRest(t: string, v: string)
    requires Spaced(Fused(t, 0)) == PLACEHOLDER + v
    ensures ShowsPlaceholder(t) <==> EndsValue(v)
  {
    hide Fused, Spaced, EndsValue;
    if ShowsPlaceholder(t) {
      var u :| Spaced(Fused(t, 0)) == PLACEHOLDER + u && EndsValue(u);
      assert u == (PLACEHOLDER + u)[10..] == (PLACEHOLDER + v)[10..] == v;
    }
  }

  /** The match at the start of `out`, if any, is masked. */
  predicate MaskedAtStart(out: string) {
    var h := Find(Assignment, out); h.Some? ==> out[..h.value.end] == Masked(Assignment, out, h.value)
  }

  /** The value of an unmasked head decides whether the match is masked. */
  lemma WideHeadMasked(s: string, n: nat)
    requires WideHead(s, n) && CoverAt(s).None?
    ensures MaskedAtStart(Spaced(Fused(s, 0))) <==> ReadsPlaceholder(s[n..])
  {
    hide Fused, Find, Spaced, CoverAt, AssignmentHead, In, ReadsPlaceholder, ShowsPlaceholder, EndsValue, MaskedAtStart;
    WideHeadCopied(s, n);
    var t := s[n..];
    var out, v := Spaced(Fused(s, 0)), Spaced(Fused(t, 0));
    assert t[0] == s[n];
    FirstSpaced(s, n);
    assert out[n] == v[0] && out[..n] == Spaced(s)[..n] && out[n..] == v;
    ValueNotTail(out[n]);
    AssignmentHeadLocal(out, Spaced(s), n);
    ShowsIff(t);
    MaskedShows(out, n, t);
  }

  lemma FirstSpaced(s: string, n: nat)
    requires n < |s| && In(ValueChar, Spaced(s)[n])
    ensures var v := Spaced(Fused(s[n..], 0)); v != "" && In(ValueChar, v[0])
  {
    hide Fused, Find, Spaced, In;
    var t := s[n..];
    FusedFirst(t);
    SpacedClass(s[n]);
    SpacedClass('[');
    BracketIsValue();
  }

  lemma BracketIsValue()
    ensures In(ValueChar, '[') && !IsWhite('[') && !IsLetter('[')
  {
  }

  lemma MaskedShows(out: string, n: nat, t: string)
    requires AssignmentHead(out) == Some(n) && n < |out| && In(ValueChar, out[n]) && out[n..] == Spaced(Fused(t, 0))
    ensures MaskedAtStart(out) <==> ShowsPlaceholder(t)
  {
    hide Fused, Spaced, In, AssignmentHead, RunLen;
    if ShowsPlaceholder(t) {
      var u :| Spaced(Fused(t, 0)) == PLACEHOLDER + u && EndsValue(u);
      MaskedAssignment(out, n, u);
    }
    if MaskedAtStart(out) {
      var r := RunLen(ValueChar, out[n..]);
      assert out[n..][0] == out[n];
      RunAtLeastOne(ValueChar, out[n..]);
      assert Find(Assignment, out) == Some(Hit(n, n + r));
      assert out[..n + r] == out[..n] + PLACEHOLDER;
      MaskedRun(out, n, r);
      var u := out[n + 10..];
      assert out[n..] == PLACEHOLDER + u;
    }
  }

  lemma MaskedRun(out: string, n: nat, r: nat)
    requires n <= |out| && r == RunLen(ValueChar, out[n..]) && out[..n + r] == out[..n] + PLACEHOLDER
    ensures r == 10 && n + 10 <= |out| && out[n..] == PLACEHOLDER + out[n + 10..] && EndsValue(out[n + 10..])
  {
    hide RunLen, In;
    assert |out[..n + r]| == n + 10;
    assert out[n..] == out[..n + 10][n..] + out[n + 10..];
    assert (out[..n] + PLACEHOLDER)[n..] == PLACEHOLDER;
    if n + 10 < |out| {
      assert out[n + 10..][0] == out[n..][10];
    }
  }

  /** Masking makes up no head of an assignment. */
  lemma WideHeadBack(s: string)
    requires Quiet(s) && Find(Assignment, Spaced(Fused(s, 0))).Some?
    ensures Find(Assignment, Spaced(s)).Some?
  {
    hide Fused, Find, Spaced, CoverAt, AssignmentHead, In, IsWhite;
    var f := Fused(s, 0);
    var out := Spaced(f);
    var n := ValueAt(out);
    AssignmentHeadChars(out, n);
    BracketIsValue();
    forall k | 0 <= k < n ensures f[..n][k] != '[' { assert out[k] != '['; }
    FusedLead(s, n);
    SpacedParts(s, n);
    SpacedParts(f, n);
    HeadAtValue(s, n);
    WideHeadIs(s);
  }

  lemma HeadAtValue(s: string, n: nat)
    requires CoverAt(s).None? && AssignmentHead(Spaced(Fused(s, 0))) == Some(n)
    requires n < |Fused(s, 0)| && In(ValueChar, Spaced(Fused(s, 0))[n])
    requires n <= |s| && Spaced(s)[..n] == Spaced(Fused(s, 0))[..n] && s[..n] == Fused(s, 0)[..n]
    ensures WideHead(s, n)
  {
    hide Fused, Find, Spaced, CoverAt, AssignmentHead, In, IsLetter, IsWhite;
    var f := Fused(s, 0);
    var w := WideHeadText(f, n);
    WordPrefix(s, f, w, n);
    forall k | |w| <= k < n ensures !IsLetter(s[k]) && !In(SchemeChar, s[k]) { SameAt(s, f, n, k); }
    WideTextCopied(s, w, n);
    var g := Fused(s[n..], 0);
    assert f[n] == g[0];
    FusedFirst(s[n..]);
    if Find(KeyValue, s[n..]).Some? { HitStart(KeyValue, s[n..]); KeyStartIsValue(s[n]); }
    SpacedClass(s[n]);
    SpacedClass(f[n]);
    ValueNotTail(Spaced(s)[n]);
    AssignmentHeadLocal(Spaced(s), Spaced(f), n);
  }

  lemma WideValueHere(s: string)
    requires s != "" && Quiet(s)
    ensures MaskedAtStart(Spaced(Fused(s, 0))) <==> !Here(WideValue, s)
  {
    hide Fused, Find, Spaced, CoverAt, AssignmentHead, In, ReadsPlaceholder;
    WideHeadIs(s);
    if Find(Assignment, Spaced(s)).Some? {
      WideHeadMasked(s, Find(Assignment, Spaced(s)).value.keep);
    } else if Find(Assignment, Spaced(Fused(s, 0))).Some? {
      WideHeadBack(s);
    }
  }

  /** Unmasked assignments of the spaced, masked text are the ones the reading comes to. */
  lemma {:induction false} WideValues(s: string, m: nat)
    ensures AllMasked(Assignment, Spaced(Fused(s, m))) <==> !Left(WideValue, s, m)
    decreases |s|
  {
    hide Find, CoverAt, Fused, Left, AllMasked, Here, Spaced, MaskedAtStart;
    FusedStep(s, m);
    LeftStep(WideValue, s, m);
    if s == "" {
      NothingIn(Assignment);
      assert Spaced(s) == "";
    } else if CoverAt(s).Some? {
      var c := CoverAt(s).value;
      WideValues(s[c.end..], 0);
      CoverValues(s, c, m);
    } else if m > 0 {
      WideValues(s[1..], m - 1);
    } else if Find(KeyValue, s).Some? {
      WideValues(s[1..], Find(KeyValue, s).value.end - 1);
      BehindMasked(Assignment, Fused(s[1..], Find(KeyValue, s).value.end - 1));
    } else {
      WideValues(s[1..], 0);
      WideValueHere(s);
      SpacedParts(Fused(s, 0), 1);
      assert Fused(s, 0)[1..] == Fused(s[1..], 0);
      MaskedStep(Spaced(Fused(s, 0)));
    }
  }

  lemma MaskedStep(t: string)
    requires t != ""
    ensures AllMasked(Assignment, t) <==> MaskedAtStart(t) && AllMasked(Assignment, t[1..])
  {
    hide Find, Masked;
  }

  lemma BehindMasked(p: Pass, f: string)
    requires p == Assignment || p == UrlUserinfo
    ensures AllMasked(p, Spaced(PLACEHOLDER + f)) <==> AllMasked(p, Spaced(f))
  {
    hide AllMasked, Spaced;
    SpacedJoin(PLACEHOLDER, f);
    PlaceholderSolid();
    SpacedSolid(PLACEHOLDER);
    var all := PLACEHOLDER + Spaced(f);
    if AllMasked(p, all) {
      AllMaskedDrop(p, all, 10);
    }
    if AllMasked(p, Spaced(f)) {
      if p == Assignment {
        AllMaskedBehind(p, PLACEHOLDER, Spaced(f));
      } else {
        PlaceholderIsNoUrl(0, Spaced(f));
        assert PLACEHOLDER[0..] == PLACEHOLDER;
      }
    }
  }

  /** Exactly which inputs keep an assignment unmasked. */
  lemma {:induction false} AssignmentLeftIff(x: string)
    ensures AllMasked(Assignment, Redact(x)) <==> LeavesNo(WideValue, x)
  {
    hide Fused, Left, MaskAll, AllMasked, Spaced, Collapse;
    MaskAllFused(x);
    WideValues(x, 0);
    MaskedAfterCollapse(Assignment, MaskAll(x));
  }
}
