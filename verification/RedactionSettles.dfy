/** Whatever the text, two applications of the redactor are enough: what the first one
    uncovers, the second one masks, and it uncovers nothing more. */
module RedactionSettles {
  import opened Optional
  import opened Redaction
  import opened RedactionNeedles
  import opened RedactionMasks
  import opened RedactionTwice
  import opened RedactionFusion
  import opened RedactionReading
  import opened RedactionSpaces
  import opened RedactionLeftovers
  import opened RedactionWideValues
  import opened RedactionHiddenUrls
  import opened RedactionLimits

  // ---- assignments without whitespace ----

  /** `n` is where the value of an assignment starts whose head holds no whitespace. */
  predicate SolidHead(t: string, n: nat) {
    AssignmentHead(t) == Some(n) && n < |t| && In(ValueChar, t[n]) && NoWhite(t[..n])
  }

  /** A value that is exactly the placeholder stands at `n`. */
  predicate HoldsPlaceholder(t: string, n: nat)
    requires n <= |t|
  {
    n + 10 <= |t| && t[n..n + 10] == PLACEHOLDER && EndsValue(t[n + 10..])
  }

  predicate SolidMaskedHere(t: string) {
    var h := AssignmentHead(t); h.Some? && SolidHead(t, h.value) ==> HoldsPlaceholder(t, h.value)
  }

  /** Every assignment without whitespace in its head is masked. */
  predicate SolidMasked(t: string) { t == "" || (SolidMaskedHere(t) && SolidMasked(t[1..])) }

  lemma {:induction false} SolidDrop(t: string, n: nat)
    requires SolidMasked(t) && n <= |t|
    ensures SolidMasked(t[n..])
  {
    hide SolidMaskedHere;
    if n > 0 {
      SolidDrop(t[1..], n - 1);
      assert t[1..][n - 1..] == t[n..];
    } else {
      assert t[0..] == t;
    }
  }

  lemma SolidNow(t: string, n: nat)
    requires SolidMasked(t) && SolidHead(t, n)
    ensures HoldsPlaceholder(t, n)
  {
    hide AssignmentHead, HoldsPlaceholder;
  }

  lemma HeadStart(t: string)
    requires AssignmentHead(t).Some?
    ensures t[0] == 'F'
  {
    hide FirstWord, NameTail;
    var w := FirstWord(ASSIGNMENT_NAMES, t).value;
    NameChars(w);
    assert t[..|w|][0] == w[0];
  }

  lemma {:induction false} SolidBehind(w: string, t: string)
    requires SolidMasked(t) && forall k :: 0 <= k < |w| ==> w[k] != 'F'
    ensures SolidMasked(w + t)
  {
    hide AssignmentHead, HoldsPlaceholder, SolidHead;
    if w == "" {
      assert w + t == t;
    } else {
      SolidBehind(w[1..], t);
      assert (w + t)[1..] == w[1..] + t;
      if AssignmentHead(w + t).Some? { HeadStart(w + t); }
    }
  }

  lemma SolidBehindSpaced(w: string, t: string)
    requires SolidMasked(t) && forall k :: 0 <= k < |w| ==> w[k] != 'F'
    ensures SolidMasked(Spaced(w) + t)
  {
    hide Spaced, SolidMasked, IsWhite;
    SolidBehind(Spaced(w), t);
  }

  lemma SolidStep(t: string)
    requires t != "" && SolidMasked(t[1..]) && SolidMaskedHere(t)
    ensures SolidMasked(t)
  {
    hide SolidMaskedHere;
  }

  // ---- masked text ----

  /** Where nothing is rewritten, no assignment without whitespace starts. */
  lemma QuietSolid(s: string)
    requires s != "" && Quiet(s)
    ensures SolidMaskedHere(Spaced(Fused(s, 0)))
  {
    hide Fused, Spaced, AssignmentHead, CoverAt, Find, HoldsPlaceholder, In, IsWhite, Assigned;
    var f := Fused(s, 0);
    var out := Spaced(f);
    var h := AssignmentHead(out);
    if h.Some? && SolidHead(out, h.value) {
      var n := h.value;
      AssignmentHeadChars(out, n);
      SolidSame(f, n);
      FusedLead(s, n);
      SpacedParts(s, n);
      SpacedParts(f, n);
      HeadAtValue(s, n);
      HeadUnspaced(s, n);
      AssignedHere(s, n);
      NoCoverNoAssigned(s);
    }
  }

  lemma SpacedAt(f: string, k: nat)
    requires k < |f|
    ensures Spaced(f)[k] == f[k] || IsWhite(Spaced(f)[k])
  {
    hide Spaced, IsWhite;
    SpaceIs();
  }

  lemma SolidSame(f: string, n: nat)
    requires n <= |f| && NoWhite(Spaced(f)[..n]) && forall k :: 0 <= k < n ==> Spaced(f)[k] != '['
    ensures Spaced(f)[..n] == f[..n] && '[' !in f[..n]
  {
    hide Spaced, IsWhite;
    forall k | 0 <= k < n ensures Spaced(f)[..n][k] == f[k] {
      SpacedAt(f, k);
      assert !IsWhite(Spaced(f)[..n][k]);
    }
    SameChars(f, Spaced(f), n);
  }

  lemma SameChars(f: string, z: string, n: nat)
    requires n <= |f| == |z| && forall k :: 0 <= k < n ==> z[..n][k] == f[k] && z[k] != '['
    ensures z[..n] == f[..n] && '[' !in f[..n]
  {
    assert forall k :: 0 <= k < n ==> z[..n][k] == z[k];
  }

  lemma HeadUnspaced(s: string, n: nat)
    requires WideHead(s, n) && Spaced(s)[..n] == s[..n]
    ensures AssignmentHead(s) == Some(n) && n < |s| && In(ValueChar, s[n])
  {
    hide Spaced, AssignmentHead, In;
    SpacedClass(s[n]);
    ValueNotTail(s[n]);
    AssignmentHeadLocal(s, Spaced(s), n);
  }

  lemma AssignedHere(s: string, n: nat)
    requires AssignmentHead(s) == Some(n) && n < |s| && In(ValueChar, s[n])
    ensures Assigned(s).Some?
  {
    hide Find, FirstWord, NameTail, ValueOf, In;
    var w := FirstWord(ASSIGNMENT_NAMES, s).value;
    NameUnderscore(w);
    assert s[n..][0] == s[n];
    ValueStep(s[n..]);
  }

  lemma CoverSolid(s: string, c: Cover, m: nat)
    requires CoverAt(s) == Some(c) && SolidMasked(Spaced(Fused(s[c.end..], 0)))
    ensures SolidMasked(Spaced(Rest(s, m, c.keep) + (PLACEHOLDER + (c.after + Fused(s[c.end..], 0)))))
  {
    hide *;
    var f, w := Fused(s[c.end..], 0), Rest(s, m, c.keep);
    SpacedAround(w, c.after, f);
    CoverAfterSolid(s, c, f);
    CoverHeadSolid(s, c, m, PLACEHOLDER + Spaced(c.after + f));
  }

  lemma PlaceholderNoF()
    ensures forall k :: 0 <= k < |PLACEHOLDER| ==> PLACEHOLDER[k] != 'F'
  {
  }

  lemma CoverAfterSolid(s: string, c: Cover, f: string)
    requires CoverAt(s) == Some(c) && SolidMasked(Spaced(f))
    ensures SolidMasked(PLACEHOLDER + Spaced(c.after + f))
  {
    hide *;
    SpacedJoin(c.after, f);
    AfterNoF(s, c);
    SolidBehindSpaced(c.after, Spaced(f));
    PlaceholderNoF();
    SolidBehind(PLACEHOLDER, Spaced(c.after) + Spaced(f));
  }

  lemma CoverHeadSolid(s: string, c: Cover, m: nat, t: string)
    requires CoverAt(s) == Some(c) && t == PLACEHOLDER + Spaced(c.after + Fused(s[c.end..], 0)) && SolidMasked(t)
    ensures SolidMasked(Spaced(Rest(s, m, c.keep)) + t)
  {
    hide CoverAt, Assigned, Fused, Spaced, SolidMasked, Find, UrlHead, AssignmentHead;
    CoverCases(s, c);
    var w := Rest(s, m, c.keep);
    if Assigned(s) == Some(c) {
      AssignedSolid(s, c, m, t);
    } else if Find(Bearer, s) == Some(Hit(c.keep, c.end)) {
      BearerShape(s, Hit(c.keep, c.end));
      forall k | 0 <= k < |w| ensures w[k] != 'F' { NoF(w[k]); }
      SolidBehindSpaced(w, t);
    } else {
      UrlHitShape(s, Hit(c.keep, c.end));
      if m <= c.keep {
        SchemeSolid(s, c.keep, m, t);
        HeadSolid(s, c.keep);
        SpacedSolid(w);
      } else {
        SolidBehindSpaced(w, t);
      }
    }
  }

  lemma {:induction false} SchemeSolid(s: string, n: nat, k: nat, t: string)
    requires UrlHead(s) == Some(n) && k <= n && SolidMasked(t)
    ensures n <= |s| && SolidMasked(s[k..n] + t)
    decreases n - k
  {
    hide UrlHead, SolidHead, HoldsPlaceholder, FirstWord, NameTail;
    if k == n {
      assert s[k..n] + t == t;
    } else {
      SchemeSolid(s, n, k + 1, t);
      var z := s[k..n] + t;
      assert z[1..] == s[k + 1..n] + t;
      NoNameAt(s, n, k, z);
    }
  }

  lemma AssignedSolid(s: string, c: Cover, m: nat, t: string)
    requires CoverAt(s) == Some(c) && Assigned(s) == Some(c)
    requires t == PLACEHOLDER + Spaced(c.after + Fused(s[c.end..], 0)) && SolidMasked(t)
    ensures SolidMasked(Spaced(Rest(s, m, c.keep)) + t)
  {
    hide CoverAt, Assigned, Fused, Spaced, SolidMasked, AssignmentHead, EndsValue;
    var x := AssignedText(s, c);
    AssignmentHeadChars(s, c.keep);
    if m > 0 {
      SolidBehindSpaced(Rest(s, m, c.keep), t);
    } else {
      assert Rest(s, 0, c.keep) == s[..c.keep];
      CoverEnds(s, c);
      HeadThenPlaceholder(s, c.keep, Spaced(c.after + Fused(s[c.end..], 0)));
    }
  }

  lemma HeadThenPlaceholder(s: string, n: nat, u: string)
    requires AssignmentHead(s) == Some(n) && EndsValue(u) && SolidMasked(PLACEHOLDER + u)
    requires n <= |s| && forall k :: 0 < k < n ==> s[k] != 'F'
    ensures SolidMasked(Spaced(s[..n]) + (PLACEHOLDER + u))
  {
    hide Spaced, SolidMasked, AssignmentHead, EndsValue;
    var w, t := s[..n], PLACEHOLDER + u;
    var full := Spaced(w) + t;
    SpacedCoverHead(s, n, t);
    assert full[n..n + 10] == PLACEHOLDER && full[n + 10..] == u;
    HeadLong(s, n);
    SpacedParts(w, 1);
    assert full[1..] == Spaced(w[1..]) + t;
    SolidBehindSpaced(w[1..], t);
    SolidStep(full);
  }

  lemma HeadLong(s: string, n: nat)
    requires AssignmentHead(s) == Some(n)
    ensures n > 0
  {
    hide FirstWord, NameTail;
  }

  /** Masked text holds no unmasked assignment without whitespace. */
  lemma {:induction false} FusedSolid(s: string, m: nat)
    ensures SolidMasked(Spaced(Fused(s, m)))
    decreases |s|
  {
    hide Find, CoverAt, Fused, Spaced, SolidMaskedHere, SolidMasked;
    FusedStep(s, m);
    if s == "" {
      NothingSolid();
      assert Spaced(s) == "";
    } else if CoverAt(s).Some? {
      var c := CoverAt(s).value;
      FusedSolid(s[c.end..], 0);
      CoverSolid(s, c, m);
    } else if m > 0 {
      FusedSolid(s[1..], m - 1);
    } else if Find(KeyValue, s).Some? {
      var f := Fused(s[1..], Find(KeyValue, s).value.end - 1);
      FusedSolid(s[1..], Find(KeyValue, s).value.end - 1);
      SpacedJoin(PLACEHOLDER, f);
      PlaceholderSolid();
      SpacedSolid(PLACEHOLDER);
      SolidBehind(PLACEHOLDER, Spaced(f));
    } else {
      FusedSolid(s[1..], 0);
      QuietSolid(s);
      SpacedParts(Fused(s, 0), 1);
      assert Fused(s, 0)[1..] == Fused(s[1..], 0);
      SolidStep(Spaced(Fused(s, 0)));
    }
  }

  lemma NothingSolid()
    ensures SolidMasked("")
  {
  }

  // ---- redacted text ----

  lemma {:induction false} SqueezeKeepsSolid(s: string)
    requires AsciiSpaced(s) && SolidMasked(s)
    ensures SolidMasked(Squeeze(s))
    decreases |s|
  {
    hide SolidMasked, SolidMaskedHere, RunLen, IsWhite, Squeeze, AsciiSpaced;
    SqueezeStep(s);
    if s == "" {
    } else if IsWhite(s[0]) {
      var n := RunLen(White, s);
      AsciiDrop(s, n);
      SolidDrop(s, n);
      SqueezeKeepsSolid(s[n..]);
      if n < |s| { SolidBehind(" ", Squeeze(s[n..])); } else { NothingSolid(); }
    } else {
      AsciiDrop(s, 1);
      SolidDrop(s, 1);
      SqueezeKeepsSolid(s[1..]);
      assert Squeeze(s)[1..] == Squeeze(s[1..]);
      SqueezeSolidHere(s);
      SolidStep(Squeeze(s));
    }
  }

  lemma SqueezeSolidHere(s: string)
    requires s != "" && AsciiSpaced(s) && SolidMasked(s)
    ensures SolidMaskedHere(Squeeze(s))
  {
    hide SolidMasked, Squeeze, AssignmentHead, AsciiSpaced, In, IsWhite, EndsValue;
    var out := Squeeze(s);
    var h := AssignmentHead(out);
    if h.Some? && SolidHead(out, h.value) {
      var n := h.value;
      SolidLead(s, n);
      var v := s[n..];
      SqueezeValueStart(v);
      assert s[n] == v[0] && out[n] == Squeeze(v)[0];
      ValueNotTail(s[n]);
      AssignmentHeadLocal(s, out, n);
      SolidNow(s, n);
      AsciiTail(s, n);
      PlaceholderSqueezed(v);
      assert out[n..] == Squeeze(v);
      assert out[n..n + 10] == Squeeze(v)[..10] && out[n + 10..] == Squeeze(v)[10..];
    }
  }

  /** A head without whitespace was there before the collapse. */
  lemma SolidLead(s: string, n: nat)
    requires n <= |Squeeze(s)| && NoWhite(Squeeze(s)[..n])
    ensures n <= |s| && s[..n] == Squeeze(s)[..n] && Squeeze(s)[n..] == Squeeze(s[n..])
  {
    hide Squeeze, IsWhite;
    SpaceIs();
    SqueezeLead(s, n);
    assert s == s[..n] + s[n..];
    SqueezeSolid(s[..n], s[n..]);
  }

  lemma PlaceholderSqueezed(v: string)
    requires AsciiSpaced(v) && HoldsPlaceholder(v, 0)
    ensures |Squeeze(v)| >= 10 && Squeeze(v)[..10] == PLACEHOLDER && EndsValue(Squeeze(v)[10..])
  {
    hide Squeeze, IsWhite;
    var u := v[10..];
    assert v == PLACEHOLDER + u;
    PlaceholderSolid();
    SqueezeSolid(PLACEHOLDER, u);
    SqueezeStep(u);
    SpaceEnds(' ');
  }

  lemma RedactedSolid(x: string)
    ensures SolidMasked(Redact(x))
  {
    hide SolidMasked, Squeeze, RunLen, Spaced, Fused, MaskAll, AsciiSpaced;
    MaskAllFused(x);
    FusedSolid(x, 0);
    var t := Spaced(MaskAll(x));
    CollapseSpaced(MaskAll(x));
    SpacedAscii(MaskAll(x));
    var n := RunLen(White, t);
    AsciiDrop(t, n);
    SolidDrop(t, n);
    SqueezeKeepsSolid(t[n..]);
  }

  // ---- nothing is hidden any more ----

  /** The value of a masked assignment is read as the placeholder and nothing more. */
  lemma {:induction false} PlaceholderValue(k: nat, w: string)
    requires k <= 10 && EndsValue(w)
    ensures ValueOf(PLACEHOLDER[k..] + w) == Value(10 - k, "")
    decreases 10 - k
  {
    hide Find, ValueOf, In, Quiet;
    var t := PLACEHOLDER[k..] + w;
    ValueStep(t);
    if k == 10 {
      assert t == w;
      if w != "" { EndsNoHit(w); }
    } else {
      PlaceholderQuiet(k, w);
      assert Quiet(t);
      QuietNoHit(t);
      assert t[0] == PLACEHOLDER[k] && t[1..] == PLACEHOLDER[k + 1..] + w;
      PlaceholderValueChars();
      PlaceholderValue(k + 1, w);
    }
  }

  lemma QuietNoHit(t: string)
    requires Quiet(t)
    ensures Find(Bearer, t).None? && Find(UrlUserinfo, t).None?
  {
    hide CoverAt, Find;
    NoCoverNoHit(t);
  }

  lemma EndsNoHit(w: string)
    requires w != "" && !In(ValueChar, w[0])
    ensures Find(Bearer, w).None? && Find(UrlUserinfo, w).None?
  {
    hide Find;
    if Find(Bearer, w).Some? { HitStart(Bearer, w); }
    if Find(UrlUserinfo, w).Some? { HitStart(UrlUserinfo, w); }
  }

  /** In such text an assignment that userinfo runs over is `name=[REDACTED]`, all userinfo characters. */
  lemma MaskedAssigned(t: string, c: Cover)
    requires SolidMasked(t) && Assigned(t) == Some(c) && NoWhite(t[..c.keep])
    ensures c.after == "" ==> forall k :: 0 <= k < c.end ==> In(UserinfoChar, t[k])
  {
    hide Assigned, SolidMasked, AssignmentHead, In, IsWhite, ValueOf, EndsValue;
    var x := AssignedText(t, c);
    AssignedValueStart(t, c);
    SolidNow(t, c.keep);
    AssignedEnd(t, c);
    HeadChars(t, c.keep);
    PlaceholderUserinfo();
    forall k | 0 <= k < c.end ensures In(UserinfoChar, t[k]) {
      if k < c.keep { assert t[..c.keep][k] == t[k]; } else { assert t[k] == t[c.keep..c.keep + 10][k - c.keep]; }
    }
  }

  lemma AssignedValueStart(t: string, c: Cover)
    requires Assigned(t) == Some(c)
    ensures In(ValueChar, t[c.keep])
  {
    hide Find, FirstWord, NameTail, ValueOf, In;
    var w := FirstWord(ASSIGNMENT_NAMES, t).value;
    NameUnderscore(w);
    var h := Find(UrlUserinfo, t[|w| - 3..]);
    SlashIsValue();
    if h.Some? && h.value.keep == 6 {
      KeyUrlHead(t, w, h.value);
    } else {
      var v := t[c.keep..];
      assert v[0] == t[c.keep];
      ValueStep(v);
      LettersAreValues();
      if Find(Bearer, v).Some? { HitStart(Bearer, v); }
      if Find(UrlUserinfo, v).Some? { HitStart(UrlUserinfo, v); }
    }
  }

  lemma SlashIsValue()
    ensures In(ValueChar, '/')
  {
  }

  lemma LettersAreValues()
    ensures forall c :: IsLetter(c) ==> In(ValueChar, c)
  {
  }

  lemma AssignedEnd(t: string, c: Cover)
    requires Assigned(t) == Some(c) && HoldsPlaceholder(t, c.keep)
    ensures c.end == c.keep + 10
  {
    hide Find, FirstWord, NameTail, ValueOf, HoldsPlaceholder, In;
    var w := FirstWord(ASSIGNMENT_NAMES, t).value;
    NameUnderscore(w);
    var h := Find(UrlUserinfo, t[|w| - 3..]);
    HeldValue(t, c.keep);
    if h.Some? && h.value.keep == 6 {
      KeyUrlHead(t, w, h.value);
    }
  }

  lemma HeldValue(t: string, n: nat)
    requires n <= |t| && HoldsPlaceholder(t, n)
    ensures n < |t| && t[n] == '[' && ValueOf(t[n..]) == Value(10, "")
  {
    hide ValueOf, EndsValue;
    assert t[n] == t[n..n + 10][0];
    assert t[n..] == PLACEHOLDER + t[n + 10..];
    assert PLACEHOLDER[0..] == PLACEHOLDER;
    PlaceholderValue(0, t[n + 10..]);
  }

  /** So userinfo that reaches an `@` over assignments reaches it at once. */
  lemma {:induction false} ReachesAtOnce(t: string)
    requires SolidMasked(t) && Reaches(t)
    ensures EndsAtAt(t)
  {
    hide Assigned, Reaches, EndsAtAt, SolidMasked, In, IsWhite;
    ReachesStep(t);
    if Assigned(t).Some? {
      var c := Assigned(t).value;
      SolidDrop(t, c.end);
      ReachesAtOnce(t[c.end..]);
      MaskedAssigned(t, c);
      assert t == t[..c.end] + t[c.end..];
      EndsBehind(t[..c.end], t[c.end..]);
    } else if t[0] == '@' {
      AtEnds(t[1..]);
      assert t == "@" + t[1..];
    } else {
      SolidDrop(t, 1);
      ReachesAtOnce(t[1..]);
      EndsBehind([t[0]], t[1..]);
      assert t == [t[0]] + t[1..];
    }
  }

  lemma NotHiddenHere(s: string)
    requires SolidMasked(s) && Quiet(s)
    ensures !Here(HiddenUserinfo, s)
  {
    hide Assigned, Reaches, EndsAtAt, SolidMasked, Find, CoverAt, UrlHead;
    NoCoverNoHit(s);
    if UrlHead(s).Some? {
      var n := UrlHead(s).value;
      if n < |s| && s[n] != '@' && Reaches(s[n..]) {
        SolidDrop(s, n);
        ReachesAtOnce(s[n..]);
        assert s[n..][0] == s[n];
        FoundIff(s, n, s[n..]);
      }
    }
  }

  lemma {:induction false} NotHidden(s: string, m: nat)
    requires SolidMasked(s)
    ensures !Left(HiddenUserinfo, s, m)
    decreases |s|
  {
    hide SolidMasked, Left, CoverAt, Find, Here;
    LeftStep(HiddenUserinfo, s, m);
    if s == "" {
    } else if CoverAt(s).Some? {
      SolidDrop(s, CoverAt(s).value.end);
      NotHidden(s[CoverAt(s).value.end..], 0);
    } else {
      SolidDrop(s, 1);
      NotHidden(s[1..], if m > 0 then m - 1 else if Find(KeyValue, s).Some? then Find(KeyValue, s).value.end - 1 else 0);
      if m == 0 && Find(KeyValue, s).None? { NotHiddenHere(s); }
    }
  }

  /** Redaction settles after two applications, whatever the text. */
  lemma {:induction false} RedactSettles(x: string)
    ensures Redact(Redact(Redact(x))) == Redact(Redact(x))
  {
    hide Redact, AsciiSpaced, SolidMasked, Left, NoHit, AllMasked, LeavesNo;
    var y := Redact(x);
    RedactedIsCollapsed(x);
    NoBearerLeft(y);
    BearerLeftIff(y);
    AssignmentsLeftMasked(y);
    AssignmentLeftIff(y);
    RedactedSolid(x);
    NotHidden(y, 0);
    LeavesNoIs(HiddenUserinfo, y);
    LeavesAll(y);
    RedactIdempotentIff(y);
  }

  lemma LeavesNoIs(lo: Leftover, x: string)
    ensures LeavesNo(lo, x) <==> !Left(lo, x, 0)
  {
  }
}
