/** The redactor's masking as one left-to-right reading, key values included. */
module RedactionReading {
  import opened Optional
  import opened Redaction
  import opened RedactionNeedles
  import opened RedactionMasks
  import opened RedactionFusion

  /** All four passes in one reading. The next `m` characters belong to a key value that is masked already. */
  function Fused(s: string, m: nat): string {
    if s == "" then ""
    else
      match CoverAt(s)
      case Some(c) => Rest(s, m, c.keep) + (PLACEHOLDER + (c.after + Fused(s[c.end..], 0)))
      case None =>
        if m > 0 then Fused(s[1..], m - 1)
        else
          match Find(KeyValue, s)
          case Some(k) => PLACEHOLDER + Fused(s[1..], k.end - 1)
          case None => [s[0]] + Fused(s[1..], 0)
  }

  /** What is left of the first `n` characters without the first `m`. */
  function Rest(s: string, m: nat, n: nat): string
    requires n <= |s|
  {
    if m <= n then s[m..n] else ""
  }

  lemma FusedStep(s: string, m: nat)
    ensures s == "" ==> Fused(s, m) == ""
    ensures s != "" && CoverAt(s).Some? ==>
              var c := CoverAt(s).value;
              Fused(s, m) == Rest(s, m, c.keep) + (PLACEHOLDER + (c.after + Fused(s[c.end..], 0)))
    ensures s != "" && CoverAt(s).None? && m > 0 ==> Fused(s, m) == Fused(s[1..], m - 1)
    ensures s != "" && CoverAt(s).None? && m == 0 && Find(KeyValue, s).Some? ==>
              Fused(s, m) == PLACEHOLDER + Fused(s[1..], Find(KeyValue, s).value.end - 1)
    ensures s != "" && CoverAt(s).None? && m == 0 && Find(KeyValue, s).None? ==>
              Fused(s, m) == [s[0]] + Fused(s[1..], 0)
  {
    hide CoverAt, Find, Rest;
  }

  lemma CoverCases(s: string, c: Cover)
    requires CoverAt(s) == Some(c)
    ensures Assigned(s) == Some(c)
         || (Find(Bearer, s) == Some(Hit(c.keep, c.end)) && c.after == "")
         || (Find(UrlUserinfo, s) == Some(Hit(c.keep, c.end)) && c.after == "@")
  {
    hide Assigned, Find;
  }

  // ---- key characters ----

  /** The key characters in front of a rewritten place all stay. */
  lemma CoverKeyRun(s: string, c: Cover)
    requires CoverAt(s) == Some(c)
    ensures RunLen(KeyChar, s) < c.keep
  {
    hide RunLen, CoverAt, Find, Assigned;
    CoverCases(s, c);
    if Assigned(s) == Some(c) {
      var u := AssignedText(s, c);
      MarkerInHead(s, c.keep);
    } else if Find(Bearer, s) == Some(Hit(c.keep, c.end)) {
      BearerShape(s, Hit(c.keep, c.end));
      RunStops(KeyChar, s, 6);
    } else {
      UrlHitShape(s, Hit(c.keep, c.end));
      SchemeShape(s, c.keep);
      RunStops(KeyChar, s, c.keep - 3);
    }
  }

  lemma RunStops(cls: CharClass, s: string, n: nat)
    requires n < |s| && !In(cls, s[n])
    ensures RunLen(cls, s) <= n
  {
    hide In;
  }

  lemma MarkerInHead(s: string, n: nat)
    requires AssignmentHead(s) == Some(n)
    ensures RunLen(KeyChar, s) < n
  {
    hide RunLen, FirstWord;
    var w := FirstWord(ASSIGNMENT_NAMES, s).value;
    var m := RunLen(Space, s[|w|..]);
    assert s[|w|..][m] == s[|w| + m];
    RunStops(KeyChar, s, |w| + m);
  }

  /** Passes 1 to 3 keep the run of key characters. */
  lemma {:induction false} KeyRunKept(s: string)
    ensures var r, out := RunLen(KeyChar, s), FirstThree(s);
            r <= |out| && out[..r] == s[..r] && RunLen(KeyChar, out) == r
  {
    hide FirstThree, CoverAt, In;
    FirstThreeStep(s);
    if s == "" {
    } else if CoverAt(s).Some? {
      var c := CoverAt(s).value;
      CoverKeyRun(s, c);
      var r := RunLen(KeyChar, s);
      TakePrefixOf(s[..c.keep], PLACEHOLDER + (c.after + FirstThree(s[c.end..])), r);
      assert s[..c.keep][..r] == s[..r];
      RunPrefix(KeyChar, FirstThree(s), s, c.keep);
    } else {
      KeyRunKept(s[1..]);
      var r := RunLen(KeyChar, s);
      if r > 0 { assert s[..r] == [s[0]] + s[1..][..r - 1]; }
      assert FirstThree(s)[1..] == FirstThree(s[1..]);
    }
  }

  /** A key value is found by the run of key characters alone. */
  lemma KeyFindSame(s: string, t: string)
    requires var r := RunLen(KeyChar, s); r <= |t| && t[..r] == s[..r] && RunLen(KeyChar, t) == r
    ensures Find(KeyValue, s) == Find(KeyValue, t)
  {
    hide RunLen, Find;
    if Find(KeyValue, s).Some? {
      KeyFindOver(s, t);
    } else if Find(KeyValue, t).Some? {
      KeyFindOver(t, s);
    }
  }

  lemma KeyFindOver(s: string, t: string)
    requires var r := RunLen(KeyChar, s); r <= |t| && t[..r] == s[..r] && RunLen(KeyChar, t) == r
    requires Find(KeyValue, s).Some?
    ensures Find(KeyValue, s) == Find(KeyValue, t) == Some(Hit(0, RunLen(KeyChar, s)))
  {
    hide RunLen, FirstWord, Find, StartsWith;
    var r := RunLen(KeyChar, s);
    var w := KeyHitWord(s);
    PrefixesPrefixFree();
    TakePrefix(t, s, r, |w|);
    FirstWordLocal(VALUE_PREFIXES, t, s, w);
    KeyHitIs(t, w);
  }

  lemma KeyHitWord(s: string) returns (w: string)
    requires Find(KeyValue, s).Some?
    ensures FirstWord(VALUE_PREFIXES, s) == Some(w) && |w| < RunLen(KeyChar, s)
    ensures Find(KeyValue, s) == Some(Hit(0, RunLen(KeyChar, s)))
  {
    hide RunLen, FirstWord;
    w := FirstWord(VALUE_PREFIXES, s).value;
    KeyHitEnd(s, w);
  }

  lemma KeyHitIs(s: string, w: string)
    requires FirstWord(VALUE_PREFIXES, s) == Some(w) && |w| < RunLen(KeyChar, s)
    ensures Find(KeyValue, s) == Some(Hit(0, RunLen(KeyChar, s)))
  {
    hide RunLen, FirstWord;
    KeyHitEnd(s, w);
  }

  lemma KeyHitEnd(s: string, w: string)
    requires FirstWord(VALUE_PREFIXES, s) == Some(w)
    ensures RunLen(KeyChar, s) == |w| + RunLen(KeyChar, s[|w|..])
  {
    hide RunLen, FirstWord;
    PrefixChars(w);
    assert s == w + s[|w|..];
    RunOver(KeyChar, w, s[|w|..]);
  }

  // ---- pass 4 ----

  lemma PrefixEnd(w: string)
    requires w in VALUE_PREFIXES
    ensures w != "" && w[|w| - 1] == '_' && forall k :: 0 <= k < |w| ==> w[k] != ':' && w[k] != '/'
  {
  }

  lemma NotThisPrefix(s: string, n: nat, k: nat, z: string, w: string)
    requires 4 <= n <= |s| && s[n - 3] == ':' && s[n - 2] == '/' && s[n - 1] == '/'
    requires forall j :: 0 <= j < n - 3 ==> In(SchemeChar, s[j])
    requires k < n && n - k <= |z| && z[..n - k] == s[k..n] && w in VALUE_PREFIXES
    ensures !StartsWith(z, w)
  {
    hide In;
    PrefixEnd(w);
    NotInScheme();
    var i := if k >= n - 3 then 0 else if |w| - 1 < n - 3 - k then |w| - 1 else n - 3 - k;
    assert z[i] == z[..n - k][i] == s[k..n][i] == s[k + i];
    assert z[i] != w[i];
    if |w| <= |z| {
      assert z[..|w|][i] == z[i];
    }
  }

  /** No key value starts in the scheme of a URL. */
  lemma NoKeyInScheme(s: string, n: nat, k: nat, t: string)
    requires UrlHead(s) == Some(n) && k < n
    ensures n <= |s| && Find(KeyValue, s[k..n] + t).None?
  {
    hide RunLen, FirstWord, UrlHead, StartsWith, In;
    SchemeShape(s, n);
    var z := s[k..n] + t;
    assert z[..n - k] == s[k..n];
    forall w | w in VALUE_PREFIXES ensures !StartsWith(z, w) {
      NotThisPrefix(s, n, k, z, w);
    }
  }

  lemma KeyBehindUrl(s: string, h: Hit, m: nat, t: string)
    requires Find(UrlUserinfo, s) == Some(h) && m <= h.keep
    ensures Replace(KeyValue, s[m..h.keep] + t) == s[m..h.keep] + Replace(KeyValue, t)
  {
    hide Find, Replace, UrlHead;
    UrlHitShape(s, h);
    var w := s[m..h.keep];
    forall k | 0 <= k < |w| ensures Find(KeyValue, w[k..] + t).None? {
      assert w[k..] == s[m + k..h.keep];
      NoKeyInScheme(s, h.keep, m + k, t);
    }
    ReplaceBehind(KeyValue, w, t);
  }

  lemma NoKeyChar(c: char)
    requires c in "Bearer" || IsSpace(c) || 'A' <= c <= 'Z' || c == '_' || In(Marker, c) || In(Quote, c)
    ensures !CanStartHit(KeyValue, c)
  {
  }

  lemma NoKeyInHead(s: string, n: nat)
    requires AssignmentHead(s) == Some(n)
    ensures forall k :: 0 <= k < n ==> !CanStartHit(KeyValue, s[k])
  {
    hide NameTail, FirstWord, In, CanStartHit, IsSpace;
    var w := FirstWord(ASSIGNMENT_NAMES, s).value;
    NameUnderscore(w);
    WordChars(s, w);
    NameTailChars(s[|w|..], n - |w|);
    forall k | 0 <= k < n ensures !CanStartHit(KeyValue, s[k]) {
      if k >= |w| { assert s[|w|..][k - |w|] == s[k]; }
      NoKeyChar(s[k]);
    }
  }

  lemma KeyBehindHead(s: string, c: Cover, m: nat, t: string)
    requires CoverAt(s) == Some(c) && m <= c.keep
    ensures Replace(KeyValue, s[m..c.keep] + t) == s[m..c.keep] + Replace(KeyValue, t)
  {
    hide Find, Replace, CoverAt, Assigned, CanStartHit, AssignmentHead;
    CoverCases(s, c);
    var w := s[m..c.keep];
    if Assigned(s) == Some(c) {
      var u := AssignedText(s, c);
      NoKeyInHead(s, c.keep);
      UnstartedCopied(KeyValue, w, t);
    } else if Find(Bearer, s) == Some(Hit(c.keep, c.end)) {
      BearerShape(s, Hit(c.keep, c.end));
      forall k | 0 <= k < |w| ensures !CanStartHit(KeyValue, w[k]) {
        assert w[k] == s[m + k];
        NoKeyChar(w[k]);
      }
      UnstartedCopied(KeyValue, w, t);
    } else {
      KeyBehindUrl(s, Hit(c.keep, c.end), m, t);
    }
  }

  lemma KeyBehindAfter(s: string, c: Cover, t: string)
    requires CoverAt(s) == Some(c)
    ensures Replace(KeyValue, PLACEHOLDER + (c.after + t)) == PLACEHOLDER + (c.after + Replace(KeyValue, t))
  {
    hide Find, Replace, CoverAt, Assigned, CanStartHit;
    CoverCases(s, c);
    forall k | 0 <= k < |PLACEHOLDER| ensures !CanStartHit(KeyValue, PLACEHOLDER[k]) { NoStartAfter(PLACEHOLDER[k]); }
    UnstartedCopied(KeyValue, PLACEHOLDER, c.after + t);
    if Assigned(s) == Some(c) {
      AssignedAfter(s, c, t);
    } else {
      NoStartAfter('@');
      UnstartedCopied(KeyValue, c.after, t);
    }
  }

  lemma FourthAtCover(s: string, c: Cover, m: nat)
    requires CoverAt(s) == Some(c) && m <= c.keep
    ensures m <= |FirstThree(s)|
    ensures Replace(KeyValue, FirstThree(s)[m..])
         == Rest(s, m, c.keep) + (PLACEHOLDER + (c.after + Replace(KeyValue, FirstThree(s[c.end..]))))
  {
    hide Replace, CoverAt, FirstThree;
    FirstThreeStep(s);
    var t := PLACEHOLDER + (c.after + FirstThree(s[c.end..]));
    assert FirstThree(s)[m..] == s[m..c.keep] + t;
    KeyBehindHead(s, c, m, t);
    KeyBehindAfter(s, c, FirstThree(s[c.end..]));
  }

  /** Pass 4 after passes 1 to 3 is one reading of the text. */
  lemma {:induction false} FourPasses(s: string, m: nat)
    requires m <= RunLen(KeyChar, s)
    ensures m <= |FirstThree(s)| && Replace(KeyValue, FirstThree(s)[m..]) == Fused(s, m)
    decreases |s|
  {
    hide Find, Replace, FirstThree, Fused, CoverAt, In;
    FusedStep(s, m);
    FirstThreeStep(s);
    KeyRunKept(s);
    var out := FirstThree(s);
    if s == "" {
      ReplaceStep(KeyValue, "");
    } else if CoverAt(s).Some? {
      var c := CoverAt(s).value;
      CoverKeyRun(s, c);
      FourthAtCover(s, c, m);
      FourPasses(s[c.end..], 0);
      assert FirstThree(s[c.end..])[0..] == FirstThree(s[c.end..]);
    } else if m > 0 {
      FourPasses(s[1..], m - 1);
      assert out[m..] == FirstThree(s[1..])[m - 1..];
    } else {
      assert out[0..] == out;
      KeyFindSame(s, out);
      ReplaceStep(KeyValue, out);
      if Find(KeyValue, s).Some? {
        var k := Find(KeyValue, s).value;
        KeyFindOver(s, out);
        FourPasses(s[1..], k.end - 1);
        assert out[k.end..] == FirstThree(s[1..])[k.end - 1..];
        MaskedParts(KeyValue, out, k, Replace(KeyValue, out[k.end..]));
      } else {
        FourPasses(s[1..], 0);
        assert out[1..] == FirstThree(s[1..])[0..];
      }
    }
  }

  /** Masking, four passes each over the text of the one before, is one reading of the text. */
  lemma {:induction false} MaskAllFused(s: string)
    ensures MaskAll(s) == Fused(s, 0)
  {
    hide Replace, FirstTwo, FirstThree, Fused;
    TwoPasses(s);
    ThreePasses(s);
    FourPasses(s, 0);
    assert FirstThree(s)[0..] == FirstThree(s);
  }
}
