/** The whitespace collapse, read backwards: what collapsed text tells about the
    text it came from. */
module RedactionSpaces {
  import opened Optional
  import opened Redaction
  import opened RedactionNeedles
  import opened RedactionMasks
  import opened RedactionTwice
  import opened RedactionFusion

  // ---- which whitespace it was does not matter ----

  /** Every whitespace character becomes a space. */
  function Spaced(s: string): (r: string)
    ensures |r| == |s| && forall k :: 0 <= k < |s| ==> r[k] == if IsWhite(s[k]) then ' ' else s[k]
  {
    if s == "" then "" else [if IsWhite(s[0]) then ' ' else s[0]] + Spaced(s[1..])
  }

  lemma SpacedAscii(s: string)
    ensures AsciiSpaced(Spaced(s))
  {
    hide Spaced, IsWhite;
    SpaceIs();
  }

  lemma SpaceIs()
    ensures IsWhite(' ') && IsSpace(' ')
  {
  }

  lemma SpacedParts(s: string, n: nat)
    requires n <= |s|
    ensures Spaced(s)[n..] == Spaced(s[n..]) && Spaced(s)[..n] == Spaced(s[..n])
  {
    hide Spaced, IsWhite;
  }

  lemma SpacedJoin(a: string, b: string)
    ensures Spaced(a + b) == Spaced(a) + Spaced(b)
  {
    hide Spaced, IsWhite;
  }

  /** Text without whitespace is left alone. */
  lemma SpacedSolid(s: string)
    requires forall k :: 0 <= k < |s| ==> !IsWhite(s[k])
    ensures Spaced(s) == s
  {
    hide Spaced, IsWhite;
  }

  /** A head, the placeholder and what follows it. */
  lemma SpacedAround(w: string, a: string, f: string)
    ensures Spaced(w + (PLACEHOLDER + (a + f))) == Spaced(w) + (PLACEHOLDER + Spaced(a + f))
  {
    hide Spaced;
    SpacedJoin(w, PLACEHOLDER + (a + f));
    SpacedJoin(PLACEHOLDER, a + f);
    PlaceholderSolid();
    SpacedSolid(PLACEHOLDER);
  }

  lemma SpacedRun(s: string)
    ensures RunLen(White, Spaced(s)) == RunLen(White, s)
  {
    hide Spaced, RunLen, IsWhite;
    SpaceIs();
    var n := RunLen(White, s);
    forall k | 0 <= k < n ensures In(White, Spaced(s)[k]) {
      assert In(White, s[k]);
    }
    RunLenIs(White, Spaced(s), n);
  }

  lemma {:induction false} SqueezeSpaced(s: string)
    ensures Squeeze(Spaced(s)) == Squeeze(s)
    decreases |s|
  {
    hide Spaced, RunLen, IsWhite, Squeeze;
    SqueezeStep(s);
    SqueezeStep(Spaced(s));
    SpaceIs();
    if s == "" {
    } else if IsWhite(s[0]) {
      SpacedRun(s);
      var n := RunLen(White, s);
      SpacedParts(s, n);
      SqueezeSpaced(s[n..]);
    } else {
      SpacedParts(s, 1);
      SqueezeSpaced(s[1..]);
    }
  }

  lemma CollapseSpaced(s: string)
    ensures Collapse(Spaced(s)) == Collapse(s)
  {
    hide Spaced, RunLen, Squeeze;
    SpacedRun(s);
    SpacedParts(s, RunLen(White, s));
    SqueezeSpaced(s[RunLen(White, s)..]);
  }

  // ---- an assignment shows through the collapse ----

  /** `\\s*["']?` in front of text that starts with neither whitespace nor quote. */
  lemma SqueezeOpeningOver(a: string) returns (v: string)
    requires AsciiSpaced(a)
    requires var n := OpeningLen(a); n < |a| && In(ValueChar, a[n])
    ensures v == a[OpeningLen(a)..] && Squeeze(v) == Squeeze(a)[OpeningLen(Squeeze(a))..]
  {
    hide RunLen, Squeeze, IsWhite, AsciiSpaced;
    var c := Squeeze(a);
    var u := SqueezeSpaces(a);
    var q := RunLen(Space, c);
    var k := RunLen(Space, a);
    assert u == a[k..];
    assert u != "" && u[0] == a[k];
    SqueezeStep(u);
    SqueezeFirst(u);
    assert c[q..][0] == c[q];
    if In(Quote, u[0]) {
      v := u[1..];
      assert v == a[k + 1..];
      assert c[q + 1..] == c[q..][1..];
    } else {
      v := u;
    }
  }

  lemma SqueezeTailOver(t: string, n: nat) returns (k: nat)
    requires AsciiSpaced(t) && NameTail(t) == Some(n) && n < |t| && In(ValueChar, t[n])
    ensures NameTail(Squeeze(t)) == Some(k) && Squeeze(t)[k..] == Squeeze(t[n..])
  {
    hide RunLen, Squeeze, IsWhite, AsciiSpaced, In, NameTail, OpeningLen;
    var c := Squeeze(t);
    NameTailOpening(t);
    NameTailOpening(c);
    var m := RunLen(Space, t);
    var v := SqueezeSpaces(t);
    assert v == t[m..] && v[0] == t[m];
    SqueezeStep(v);
    SqueezeFirst(v);
    var k0 := RunLen(Space, c);
    assert c[k0..][0] == c[k0];
    var a := t[m + 1..];
    assert v[1..] == a;
    assert c[k0 + 1..] == c[k0..][1..];
    AsciiTail(t, m + 1);
    assert a[OpeningLen(a)] == t[n];
    var u := SqueezeOpeningOver(a);
    k := k0 + 1 + OpeningLen(Squeeze(a));
    assert c[k..] == c[k0 + 1..][OpeningLen(Squeeze(a))..];
    assert t[n..] == a[OpeningLen(a)..];
  }

  lemma SqueezeHeadOver(s: string, n: nat) returns (k: nat)
    requires AsciiSpaced(s) && AssignmentHead(s) == Some(n) && n < |s| && In(ValueChar, s[n])
    ensures AssignmentHead(Squeeze(s)) == Some(k) && Squeeze(s)[k..] == Squeeze(s[n..])
  {
    hide RunLen, Squeeze, IsWhite, FirstWord, NameTail, AsciiSpaced, In;
    var w := FirstWord(ASSIGNMENT_NAMES, s).value;
    var t := s[|w|..];
    assert s == w + t;
    NameSolid(w);
    SqueezeSolid(w, t);
    AsciiTail(s, |w|);
    assert t[n - |w|] == s[n];
    var j := SqueezeTailOver(t, n - |w|);
    k := |w| + j;
    NamesPrefixFree();
    TakePrefixIs(w, Squeeze(t));
    FirstWordLocal(ASSIGNMENT_NAMES, Squeeze(s), s, w);
    assert Squeeze(s)[|w|..] == Squeeze(t);
    assert Squeeze(s)[k..] == Squeeze(t)[j..];
    assert t[n - |w|..] == s[n..];
  }

  lemma TakePrefixIs(a: string, b: string)
    ensures (a + b)[..|a|] == a
  {
  }

  lemma SqueezeAssignmentBack(s: string)
    requires s != "" && AsciiSpaced(s) && AllMasked(Assignment, Squeeze(s)) && !IsWhite(s[0])
    ensures var h := Find(Assignment, s); h.Some? ==> s[..h.value.end] == Masked(Assignment, s, h.value)
  {
    hide RunLen, AllMasked, Squeeze, IsWhite, AssignmentHead, AsciiSpaced, Find;
    if Find(Assignment, s).Some? {
      var n := ValueAt(s);
      var k := SqueezeHeadOver(s, n);
      ValueUncollapsed(s, n, k);
      MaskedAssignment(s, n, s[n + 10..]);
    }
  }

  /** Collapsed text that starts with the placeholder did so before. */
  lemma PlaceholderUncollapsed(v: string, u: string)
    requires Squeeze(v) == PLACEHOLDER + u
    ensures |v| >= 10 && v == PLACEHOLDER + v[10..] && u == Squeeze(v[10..])
  {
    hide Squeeze, IsWhite;
    assert Squeeze(v)[..10] == PLACEHOLDER;
    SqueezeLead(v, 10);
    assert v[..10] == PLACEHOLDER;
    SplitAt(v, 10);
    PlaceholderSolid();
    SqueezeSolid(PLACEHOLDER, v[10..]);
    SameTail(PLACEHOLDER, u, Squeeze(v[10..]));
  }

  lemma SplitAt(v: string, n: nat)
    requires n <= |v|
    ensures v == v[..n] + v[n..]
  {
  }

  lemma SameTail(a: string, u: string, v: string)
    requires a + u == a + v
    ensures u == v
  {
    assert u == (a + u)[|a|..];
    assert v == (a + v)[|a|..];
  }

  lemma ValueUncollapsed(s: string, n: nat, k: nat)
    requires AsciiSpaced(s) && AllMasked(Assignment, Squeeze(s))
    requires n < |s| && In(ValueChar, s[n]) && AssignmentHead(Squeeze(s)) == Some(k) && Squeeze(s)[k..] == Squeeze(s[n..])
    ensures n + 10 <= |s| && s[n..] == PLACEHOLDER + s[n + 10..] && EndsValue(s[n + 10..])
  {
    hide RunLen, AllMasked, Squeeze, IsWhite, AssignmentHead, AsciiSpaced, In;
    var v := s[n..];
    AsciiTail(s, n);
    assert v[0] == s[n];
    ValueSolid(v);
    SqueezeFirst(v);
    assert Squeeze(s)[k..][0] == Squeeze(s)[k];
    var u := MaskedValue(Squeeze(s), k);
    PlaceholderUncollapsed(v, u);
    assert s[n + 10..] == v[10..];
    AsciiTail(v, 10);
    EndsUncollapsed(v[10..]);
  }

  lemma ValueSolid(v: string)
    requires AsciiSpaced(v) && v != "" && In(ValueChar, v[0])
    ensures !IsWhite(v[0])
  {
  }

  lemma EndsUncollapsed(u: string)
    requires AsciiSpaced(u) && EndsValue(Squeeze(u))
    ensures EndsValue(u)
  {
    hide Squeeze;
    SqueezeStep(u);
  }

  /** An unmasked match shows through the collapse. */
  lemma {:induction false} SqueezeBack(p: Pass, s: string)
    requires (p == Assignment || p == UrlUserinfo) && AsciiSpaced(s) && AllMasked(p, Squeeze(s))
    ensures AllMasked(p, s)
    decreases |s|
  {
    hide Find, RunLen, IsWhite, Squeeze, AsciiSpaced, AllMasked;
    SqueezeStep(s);
    if s == "" {
    } else if IsWhite(s[0]) {
      var n := RunLen(White, s);
      AsciiDrop(s, n);
      if n < |s| {
        AllMaskedDrop(p, Squeeze(s), 1);
        assert Squeeze(s)[1..] == Squeeze(s[n..]);
      } else {
        SqueezeStep(s[n..]);
      }
      SqueezeBack(p, s[n..]);
      SpacesStartNothing(p, s, n);
      AllMaskedBehind(p, s[..n], s[n..]);
      assert s[..n] + s[n..] == s;
    } else {
      AsciiDrop(s, 1);
      AllMaskedDrop(p, Squeeze(s), 1);
      assert Squeeze(s)[1..] == Squeeze(s[1..]);
      SqueezeBack(p, s[1..]);
      if p == Assignment {
        SqueezeAssignmentBack(s);
      } else {
        SqueezeUrlBack(s);
      }
      MaskedHere(p, s);
    }
  }

  lemma SpacesStartNothing(p: Pass, s: string, n: nat)
    requires n <= RunLen(White, s)
    ensures forall k :: 0 <= k < n ==> !CanStartHit(p, s[k])
  {
    hide RunLen;
    forall k | 0 <= k < n ensures !CanStartHit(p, s[k]) {
      assert In(White, s[k]);
    }
  }

  lemma SqueezeUrlBack(s: string)
    requires s != "" && AsciiSpaced(s) && AllMasked(UrlUserinfo, Squeeze(s)) && !IsWhite(s[0])
    ensures var h := Find(UrlUserinfo, s); h.Some? ==> s[..h.value.end] == Masked(UrlUserinfo, s, h.value)
  {
    hide Squeeze, IsWhite, IsSpace, Find, AllMasked;
    if Find(UrlUserinfo, s).Some? {
      var h := Find(UrlUserinfo, s).value;
      UrlHitChars(s, h);
      var w, t := s[..h.end], s[h.end..];
      assert s == w + t;
      SqueezeSolid(w, t);
      var out := Squeeze(s);
      assert out[..h.end] == w;
      UrlFindLocal(out, s, h);
      TakePrefix(out, s, h.end, h.keep);
      MaskedNow(UrlUserinfo, out);
    }
  }

  lemma MaskedNow(p: Pass, t: string)
    requires t != "" && AllMasked(p, t)
    ensures Find(p, t).Some? ==> t[..Find(p, t).value.end] == Masked(p, t, Find(p, t).value)
  {
    hide Find, Masked;
  }

  /** Whether redacted text holds unmasked matches of a pass can be read off the spaced masked text. */
  lemma MaskedAfterCollapse(p: Pass, s: string)
    requires p == Assignment || p == UrlUserinfo
    ensures AllMasked(p, Collapse(s)) <==> AllMasked(p, Spaced(s))
  {
    hide Squeeze, AllMasked, RunLen, Spaced, AsciiSpaced, CanStartHit;
    CollapseSpaced(s);
    SpacedAscii(s);
    var t := Spaced(s);
    var v := CollapseParts(t);
    var n := RunLen(White, t);
    AsciiDrop(t, n);
    if AllMasked(p, t) {
      AllMaskedDrop(p, t, n);
      if p == Assignment { SqueezeAssignments(v); } else { SqueezeUrls(v); }
    }
    if AllMasked(p, Squeeze(v)) {
      SqueezeBack(p, v);
      SpacesStartNothing(p, t, n);
      AllMaskedBehind(p, t[..n], v);
      assert t[..n] + v == t;
    }
  }
}
