/** What each pass achieves on its own text, and what later passes and the
    whitespace collapse leave of it. */
module RedactionMasks {
  import opened Optional
  import opened Redaction
  import opened RedactionNeedles

  // ---- general facts ----

  predicate CanStartHit(p: Pass, c: char) {
    match p
    case Bearer => c == 'B'
    case UrlUserinfo => IsLetter(c)
    case Assignment => c == 'F'
    case KeyValue => c == 'p' || c == 'f' || c == 'c'
  }

  lemma HitStart(p: Pass, s: string)
    requires Find(p, s).Some?
    ensures CanStartHit(p, s[0])
  {
    hide RunLen, FirstWord;
    match p
    case Bearer => assert s[0] == s[..6][0];
    case UrlUserinfo =>
    case Assignment =>
      var w := FirstWord(ASSIGNMENT_NAMES, s).value;
      NameChars(w);
      assert s[..|w|][0] == w[0];
    case KeyValue =>
      var w := FirstWord(VALUE_PREFIXES, s).value;
      PrefixChars(w);
      assert s[..|w|][0] == w[0];
  }

  lemma {:induction false} AllMaskedDrop(p: Pass, s: string, n: nat)
    requires AllMasked(p, s) && n <= |s|
    ensures AllMasked(p, s[n..])
  {
    hide Find;
    if n > 0 {
      AllMaskedDrop(p, s[1..], n - 1);
      assert s[1..][n - 1..] == s[n..];
    } else {
      assert s[0..] == s;
    }
  }

  lemma {:induction false} AllMaskedBehind(p: Pass, w: string, t: string)
    requires AllMasked(p, t) && forall k :: 0 <= k < |w| ==> !CanStartHit(p, w[k])
    ensures AllMasked(p, w + t)
  {
    hide Find;
    if w == "" {
      assert w + t == t;
    } else {
      AllMaskedBehind(p, w[1..], t);
      assert (w + t)[1..] == w[1..] + t;
      if Find(p, w + t).Some? {
        HitStart(p, w + t);
      }
    }
  }

  lemma {:induction false} ReplaceBehind(p: Pass, w: string, t: string)
    requires forall k :: 0 <= k < |w| ==> Find(p, w[k..] + t).None?
    ensures Replace(p, w + t) == w + Replace(p, t)
  {
    hide Find, Replace;
    if w == "" {
      assert w + t == t;
    } else {
      assert w[0..] == w;
      ReplaceStep(p, w + t);
      forall k | 0 <= k < |w[1..]| ensures Find(p, w[1..][k..] + t).None? {
        assert w[1..][k..] == w[k + 1..];
      }
      ReplaceBehind(p, w[1..], t);
      assert (w + t)[1..] == w[1..] + t;
    }
  }

  /** A pass copies the first `n` characters when no match starts there. */
  lemma ReplaceCopied(p: Pass, s: string, n: nat)
    requires n <= |s| && forall k :: 0 <= k < n ==> Find(p, s[k..]).None?
    ensures Replace(p, s) == s[..n] + Replace(p, s[n..])
  {
    hide Find, Replace;
    var w, t := s[..n], s[n..];
    assert w + t == s;
    forall k | 0 <= k < |w| ensures Find(p, w[k..] + t).None? {
      assert w[k..] + t == s[k..];
    }
    ReplaceBehind(p, w, t);
  }

  /** Characters that start no match are copied. */
  lemma UnstartedCopied(p: Pass, w: string, t: string)
    requires forall k :: 0 <= k < |w| ==> !CanStartHit(p, w[k])
    ensures Replace(p, w + t) == w + Replace(p, t)
  {
    hide Find, Replace, CanStartHit;
    forall k | 0 <= k < |w| ensures Find(p, w[k..] + t).None? {
      if Find(p, w[k..] + t).Some? { HitStart(p, w[k..] + t); }
    }
    ReplaceBehind(p, w, t);
  }

  lemma {:induction false} NoHitIsMasked(p: Pass, s: string)
    requires NoHit(p, s)
    ensures AllMasked(p, s)
  {
    hide Find;
    if s != "" {
      NoHitIsMasked(p, s[1..]);
    }
  }

  /** A text whose every match is masked already is a fixed point of the pass. */
  lemma {:induction false} MaskedIsFixed(p: Pass, s: string)
    requires AllMasked(p, s)
    ensures Replace(p, s) == s
  {
    hide Find, Masked, Replace;
    ReplaceStep(p, s);
    if s != "" {
      match Find(p, s)
      case None => MaskedIsFixed(p, s[1..]);
      case Some(h) =>
        AllMaskedDrop(p, s, h.end);
        MaskedIsFixed(p, s[h.end..]);
        assert s[..h.end] + s[h.end..] == s;
    }
  }

  /** Except for key values, a rewritten text starts with the same character. */
  lemma SameFirst(p: Pass, s: string)
    requires p != KeyValue || s == "" || !CanStartHit(KeyValue, s[0])
    ensures s == "" <==> Replace(p, s) == ""
    ensures s != "" ==> Replace(p, s)[0] == s[0]
  {
    hide Find, HeadLen;
    ReplaceStep(p, s);
    if s != "" && Find(p, s).Some? {
      HitStart(p, s);
    }
  }

  // ---- passes 1 and 4 leave no match ----

  lemma {:induction false} KeyPass(s: string)
    ensures Absent(KeyToken, Replace(KeyValue, s))
  {
    hide Find, NeedleLen, Replace;
    ReplaceStep(KeyValue, s);
    var out := Replace(KeyValue, s);
    if s != "" {
      match Find(KeyValue, s)
      case None =>
        KeyPass(s[1..]);
        assert out[1..] == Replace(KeyValue, s[1..]);
        if NeedleLen(KeyToken, out).Some? {
          var m := NeedleLen(KeyToken, out).value;
          NeedleClear(KeyToken, out, m);
          PassLead(KeyValue, s, m);
          NeedleLocal(KeyToken, s, out, m);
          KeyNeedle(s);
        }
      case Some(h) =>
        KeyPass(s[h.end..]);
        AbsentBehind(KeyToken, PLACEHOLDER, Replace(KeyValue, s[h.end..]));
        assert out == PLACEHOLDER + Replace(KeyValue, s[h.end..]);
    }
  }

  lemma KeyNeedle(s: string)
    ensures NeedleLen(KeyToken, s).Some? <==> Find(KeyValue, s).Some?
    ensures NeedleLen(BearerToken, s).Some? <==> Find(Bearer, s).Some?
  {
    hide Find;
  }

  lemma {:induction false} BearerPass(s: string)
    ensures Absent(BearerToken, Replace(Bearer, s))
  {
    hide Find, NeedleLen, Replace;
    ReplaceStep(Bearer, s);
    var out := Replace(Bearer, s);
    if s != "" {
      match Find(Bearer, s)
      case None =>
        BearerPass(s[1..]);
        assert out[1..] == Replace(Bearer, s[1..]);
        if NeedleLen(BearerToken, out).Some? {
          var m := NeedleLen(BearerToken, out).value;
          NeedleClear(BearerToken, out, m);
          PassLead(Bearer, s, m);
          NeedleLocal(BearerToken, s, out, m);
          KeyNeedle(s);
        }
      case Some(h) =>
        BearerPass(s[h.end..]);
        var rest := PLACEHOLDER + Replace(Bearer, s[h.end..]);
        AbsentBehind(BearerToken, PLACEHOLDER, Replace(Bearer, s[h.end..]));
        assert out == s[..h.keep] + rest;
        BearerHeadChars(s, h);
        AbsentBehind(BearerToken, s[1..h.keep], rest);
        assert out[1..] == s[1..h.keep] + rest;
        MaskedBearer(s, h, rest);
        KeyNeedle(out);
    }
  }

  lemma BearerHeadChars(s: string, h: Hit)
    requires Find(Bearer, s) == Some(h)
    ensures forall k :: 0 < k < h.keep ==> s[k] != 'B'
  {
    hide RunLen;
    forall k | 0 < k < h.keep ensures s[k] != 'B' {
      if k < 6 {
        assert s[..6][k] == "Bearer"[k];
      } else {
        assert In(Space, s[6..][k - 6]);
      }
    }
  }

  lemma MaskedBearer(s: string, h: Hit, rest: string)
    requires Find(Bearer, s) == Some(h) && rest != "" && rest[0] == '['
    ensures Find(Bearer, s[..h.keep] + rest).None?
  {
    hide RunLen, StartsWith;
    var t := s[..h.keep] + rest;
    assert t[..h.keep] == s[..h.keep];
    WordPrefix(t, s, "Bearer", h.keep);
    var n := h.keep - 6;
    forall k | 0 <= k < n ensures In(Space, t[6..][k]) {
      assert In(Space, s[6..][k]);
    }
    RunLenIs(Space, t[6..], n);
    assert t[h.keep..][0] == '[';
  }

  // ---- assignments: where the head ends ----

  lemma NameTailChars(t: string, n: nat)
    requires NameTail(t) == Some(n)
    ensures forall k :: 0 <= k < n ==> IsSpace(t[k]) || In(Marker, t[k]) || In(Quote, t[k])
  {
    hide RunLen;
    var m := RunLen(Space, t);
    var q := m + 1 + RunLen(Space, t[m + 1..]);
    forall k | 0 <= k < n ensures IsSpace(t[k]) || In(Marker, t[k]) || In(Quote, t[k]) {
      if k < m {
        assert In(Space, t[k]);
      } else if m < k < q {
        assert In(Space, t[m + 1..][k - m - 1]);
      }
    }
  }

  lemma AssignmentHeadChars(t: string, n: nat)
    requires AssignmentHead(t) == Some(n)
    ensures forall k :: 0 < k < n ==> t[k] != 'F'
    ensures forall k :: 0 <= k < n ==> t[k] != '[' && t[k] != '/'
  {
    hide RunLen, FirstWord, NameTail;
    var w := FirstWord(ASSIGNMENT_NAMES, t).value;
    NameChars(w);
    NameTailChars(t[|w|..], n - |w|);
    forall k | 0 <= k < n ensures (k > 0 ==> t[k] != 'F') && t[k] != '[' && t[k] != '/' {
      if k < |w| {
        assert t[..|w|][k] == w[k];
      } else {
        assert t[|w|..][k - |w|] == t[k];
      }
    }
  }

  /** The tail of a name is found again in a text that agrees on it and goes on with neither space nor quote. */
  lemma NameTailLocal(s: string, t: string, n: nat)
    requires NameTail(t) == Some(n) && n <= |s| && s[..n] == t[..n]
    requires n < |s| ==> !IsSpace(s[n]) && !In(Quote, s[n])
    ensures NameTail(s) == Some(n)
  {
    hide RunLen;
    var m := RunLen(Space, t);
    RunPrefix(Space, s, t, n);
    SameAt(s, t, n, m);
    var s', t' := s[m + 1..], t[m + 1..];
    var q := RunLen(Space, t');
    forall k | 0 <= k < q ensures In(Space, s'[k]) {
      SameAt(s, t, n, m + 1 + k);
      assert In(Space, t'[k]);
    }
    if m + 1 + q < n {
      SameAt(s, t, n, m + 1 + q);
    }
    RunLenIs(Space, s', q);
  }

  lemma AssignmentHeadLocal(s: string, t: string, n: nat)
    requires AssignmentHead(t) == Some(n) && n <= |s| && s[..n] == t[..n]
    requires n < |s| ==> !IsSpace(s[n]) && !In(Quote, s[n])
    ensures AssignmentHead(s) == Some(n)
  {
    hide RunLen, FirstWord, NameTail, In;
    var w := FirstWord(ASSIGNMENT_NAMES, t).value;
    NamesPrefixFree();
    TakePrefix(s, t, n, |w|);
    FirstWordLocal(ASSIGNMENT_NAMES, s, t, w);
    TailPrefix(s, t, n, |w|);
    if n < |s| {
      assert s[|w|..][n - |w|] == s[n];
    }
    NameTailLocal(s[|w|..], t[|w|..], n - |w|);
  }

  // ---- assignments: values ----

  /** `u` is empty or starts with a character that ends a value. */
  predicate EndsValue(u: string) { u == "" || !In(ValueChar, u[0]) }

  lemma PlaceholderRun(u: string)
    requires EndsValue(u)
    ensures RunLen(ValueChar, PLACEHOLDER + u) == 10
  {
    hide RunLen;
    var t := PLACEHOLDER + u;
    forall k | 0 <= k < 10 ensures In(ValueChar, t[k]) {
      assert t[k] == PLACEHOLDER[k];
    }
    RunLenIs(ValueChar, t, 10);
  }

  /** A head followed by the placeholder and the end of the value is a masked match. */
  lemma MaskedAssignment(s: string, n: nat, u: string)
    requires AssignmentHead(s) == Some(n) && s[n..] == PLACEHOLDER + u && EndsValue(u)
    ensures Find(Assignment, s) == Some(Hit(n, n + 10)) && s[..n + 10] == Masked(Assignment, s, Hit(n, n + 10))
  {
    hide RunLen, AssignmentHead;
    PlaceholderRun(u);
    assert |s| == n + 10 + |u|;
    assert s[n..][..10] == PLACEHOLDER;
    assert s[..n + 10] == s[..n] + s[n..][..10];
  }

  /** What a masked match looks like. */
  lemma MaskedValue(s: string, n: nat) returns (u: string)
    requires AssignmentHead(s) == Some(n) && AllMasked(Assignment, s) && n < |s| && In(ValueChar, s[n])
    ensures s[n..] == PLACEHOLDER + u && EndsValue(u)
  {
    hide AssignmentHead, AllMasked, In;
    var r := ValueHit(s, n);
    MaskedCut(s, n, r);
    u := s[n + 10..];
    if u != "" {
      assert u[0] == s[n..][r];
    }
  }

  /** The match of a masked assignment: its value is as long as the run of value characters. */
  lemma ValueHit(s: string, n: nat) returns (r: nat)
    requires AssignmentHead(s) == Some(n) && AllMasked(Assignment, s) && n < |s| && In(ValueChar, s[n])
    ensures r == RunLen(ValueChar, s[n..]) && s[..n + r] == s[..n] + PLACEHOLDER
  {
    hide AssignmentHead, In;
    r := RunLen(ValueChar, s[n..]);
    assert s[n..][0] == s[n];
    assert Find(Assignment, s) == Some(Hit(n, n + r));
  }

  lemma MaskedCut(s: string, n: nat, r: nat)
    requires n + r <= |s| && s[..n + r] == s[..n] + PLACEHOLDER
    ensures r == 10 && s[n..] == PLACEHOLDER + s[n + 10..]
  {
    assert |s[..n + r]| == n + r;
    assert s[n..] == s[..n + r][n..] + s[n + r..];
    assert (s[..n] + PLACEHOLDER)[n..] == PLACEHOLDER;
  }

  // ---- pass 3 masks every value ----

  lemma {:induction false} AssignmentPass(s: string)
    ensures AllMasked(Assignment, Replace(Assignment, s))
  {
    hide Find, Replace, HeadLen, Masked;
    ReplaceStep(Assignment, s);
    var out := Replace(Assignment, s);
    if s != "" {
      match Find(Assignment, s)
      case None =>
        AssignmentPass(s[1..]);
        assert out[1..] == Replace(Assignment, s[1..]);
        NoNewAssignment(s);
      case Some(h) =>
        AssignmentPass(s[h.end..]);
        AssignmentHit(s, h);
    }
  }

  lemma AssignmentHit(s: string, h: Hit)
    requires Find(Assignment, s) == Some(h)
    requires AllMasked(Assignment, Replace(Assignment, s[h.end..]))
    ensures AllMasked(Assignment, Replace(Assignment, s))
  {
    hide Replace, AssignmentHead, RunLen, AllMasked, EndsValue;
    ReplaceStep(Assignment, s);
    var rest := Replace(Assignment, s[h.end..]);
    ValueEnds(s, h);
    MaskedParts(Assignment, s, h, rest);
    assert "" + rest == rest;
    HeadMasked(s, h.keep, s[..h.keep], rest);
  }

  /** What follows a value still ends it after the pass. */
  lemma ValueEnds(s: string, h: Hit)
    requires Find(Assignment, s) == Some(h)
    ensures EndsValue(Replace(Assignment, s[h.end..]))
  {
    hide Replace, AssignmentHead, RunLen;
    SameFirst(Assignment, s[h.end..]);
    if h.end < |s| {
      assert s[h.end] == s[h.keep..][h.end - h.keep];
    }
  }

  /** A text that starts with `w`, reads as the head of `s`, and goes on with the placeholder. */
  lemma HeadMasked(s: string, n: nat, w: string, u: string)
    requires AssignmentHead(s) == Some(n) && |w| == n <= |s| && w == s[..n] && EndsValue(u) && AllMasked(Assignment, u)
    ensures AllMasked(Assignment, w + (PLACEHOLDER + u))
  {
    hide AssignmentHead, AllMasked, EndsValue;
    var t := PLACEHOLDER + u;
    var out := w + t;
    assert out[..n] == s[..n] && out[n..] == t && (n < |out| ==> out[n] == '[');
    AssignmentHeadLocal(out, s, n);
    MaskedAssignment(out, n, u);
    AllMaskedBehind(Assignment, PLACEHOLDER, u);
    AssignmentHeadChars(s, n);
    AllMaskedTail(s, n, w, t);
    MaskedHere(Assignment, out);
  }

  lemma AllMaskedTail(s: string, n: nat, w: string, t: string)
    requires AssignmentHead(s) == Some(n) && w == s[..n] && AllMasked(Assignment, t)
    requires forall k :: 0 < k < n ==> s[k] != 'F'
    ensures w + t != "" && AllMasked(Assignment, (w + t)[1..])
  {
    hide AssignmentHead, AllMasked;
    AllMaskedBehind(Assignment, w[1..], t);
    assert (w + t)[1..] == w[1..] + t;
  }

  lemma MaskedHere(p: Pass, t: string)
    requires t != "" && AllMasked(p, t[1..])
    requires Find(p, t).Some? ==> t[..Find(p, t).value.end] == Masked(p, t, Find(p, t).value)
    ensures AllMasked(p, t)
  {
    hide Find, Masked;
  }

  /** Copying a character that starts no match cannot complete an unmasked one. */
  lemma NoNewAssignment(s: string)
    requires s != "" && Find(Assignment, s).None?
    ensures Find(Assignment, Replace(Assignment, s)).None?
  {
    hide Replace, RunLen, AssignmentHead;
    var out := Replace(Assignment, s);
    if Find(Assignment, out).Some? {
      var n := Find(Assignment, out).value.keep;
      AssignmentHeadChars(out, n);
      PassLead(Assignment, s, n);
      forall k | 0 <= k < n ensures Find(Assignment, s[k..]).None? {
        if k > 0 {
          SameAt(s, out, n, k);
          NoHitAt(Assignment, s, k);
        }
      }
      ReplaceCopied(Assignment, s, n);
      SameFirst(Assignment, s[n..]);
      assert out[n..] == Replace(Assignment, s[n..]);
      assert out[n..][0] == out[n] && s[n..][0] == s[n];
      AssignmentHeadLocal(s, out, n);
    }
  }

  lemma NoHitAt(p: Pass, s: string, k: nat)
    requires k < |s| && !CanStartHit(p, s[k])
    ensures Find(p, s[k..]).None?
  {
    hide Find;
    if Find(p, s[k..]).Some? {
      HitStart(p, s[k..]);
    }
  }

  // ---- pass 4 keeps assignments masked ----

  /** While no placeholder appears, pass 4 only copies. */
  lemma {:induction false} KeyLeadSplit(s: string, n: nat)
    requires n <= |Replace(KeyValue, s)| && '[' !in Replace(KeyValue, s)[..n]
    ensures n <= |s| && Replace(KeyValue, s) == s[..n] + Replace(KeyValue, s[n..])
  {
    hide Find, Replace;
    if n == 0 {
      assert s[0..] == s;
    } else {
      KeyLeadCopied(s, n);
      KeyLeadSplit(s[1..], n - 1);
      SplitOneOn(s, n, Replace(KeyValue, s[n..]));
    }
  }

  lemma KeyLeadCopied(s: string, n: nat)
    requires 0 < n <= |Replace(KeyValue, s)| && '[' !in Replace(KeyValue, s)[..n]
    ensures s != "" && Replace(KeyValue, s) == [s[0]] + Replace(KeyValue, s[1..])
    ensures n - 1 <= |Replace(KeyValue, s[1..])| && '[' !in Replace(KeyValue, s[1..])[..n - 1]
  {
    hide Find, Replace;
    ReplaceStep(KeyValue, s);
    var out := Replace(KeyValue, s);
    FirstIn(out, n);
    if Find(KeyValue, s).None? {
      assert out[1..] == Replace(KeyValue, s[1..]);
      assert out[1..][..n - 1] == out[..n][1..];
    }
  }

  /** A split one place on is a split behind the first character. */
  lemma SplitOneOn(s: string, n: nat, r: string)
    requires 0 < n <= |s|
    ensures s[1..][n - 1..] == s[n..] && [s[0]] + (s[1..][..n - 1] + r) == s[..n] + r
  {
    assert [s[0]] + s[1..][..n - 1] == s[..n];
  }

  lemma {:induction false} KeyPassKeepsAssignments(s: string)
    requires AllMasked(Assignment, s)
    ensures AllMasked(Assignment, Replace(KeyValue, s))
  {
    hide Find, Replace;
    ReplaceStep(KeyValue, s);
    var out := Replace(KeyValue, s);
    if s != "" {
      match Find(KeyValue, s)
      case None =>
        KeyPassKeepsAssignments(s[1..]);
        assert out[1..] == Replace(KeyValue, s[1..]);
        KeyPassAssignmentHere(s);
        MaskedHere(Assignment, out);
      case Some(h) =>
        AllMaskedDrop(Assignment, s, h.end);
        KeyPassKeepsAssignments(s[h.end..]);
        AllMaskedBehind(Assignment, PLACEHOLDER, Replace(KeyValue, s[h.end..]));
        assert out == PLACEHOLDER + Replace(KeyValue, s[h.end..]);
    }
  }

  lemma KeyPassAssignmentHere(s: string)
    requires s != "" && AllMasked(Assignment, s)
    ensures var out := Replace(KeyValue, s); var h := Find(Assignment, out);
            h.Some? ==> out[..h.value.end] == Masked(Assignment, out, h.value)
  {
    hide Replace, RunLen, AssignmentHead, AllMasked;
    var out := Replace(KeyValue, s);
    if Find(Assignment, out).Some? {
      var n := Find(Assignment, out).value.keep;
      AssignmentHeadChars(out, n);
      KeyLeadSplit(s, n);
      PassLead(KeyValue, s, n);
      var v := s[n..];
      assert out[n..] == Replace(KeyValue, v);
      assert out[n..][0] == out[n];
      SurvivingValue(KeyValue, s, n, out);
    }
  }

  /** Where the tails of `s` and `out` start alike, a masked value of `s` is one of `out`. */
  lemma SurvivingValue(p: Pass, s: string, n: nat, out: string)
    requires p == KeyValue || p == UrlUserinfo
    requires n <= |s| && n < |out| && s[..n] == out[..n] && out[n..] == Replace(p, s[n..])
    requires AssignmentHead(out) == Some(n) && In(ValueChar, out[n]) && AllMasked(Assignment, s)
    requires n < |s| && p == KeyValue && CanStartHit(KeyValue, s[n]) ==> In(ValueChar, s[n])
    ensures Find(Assignment, out) == Some(Hit(n, n + 10))
    ensures out[..n + 10] == Masked(Assignment, out, Hit(n, n + 10))
  {
    hide Replace, RunLen, AssignmentHead, AllMasked, Find;
    var v := s[n..];
    ReplaceStep(p, v);
    assert out[n..][0] == out[n];
    assert v != "" && v[0] == s[n];
    if !In(ValueChar, v[0]) {
      SameFirst(p, v);
    }
    AssignmentHeadLocal(s, out, n);
    var u := MaskedValue(s, n);
    PlaceholderStays(p, u);
    MaskedAssignment(out, n, Replace(p, u));
  }

  lemma PlaceholderStays(p: Pass, u: string)
    requires (p == KeyValue || p == UrlUserinfo) && EndsValue(u)
    ensures Replace(p, PLACEHOLDER + u) == PLACEHOLDER + Replace(p, u)
    ensures EndsValue(Replace(p, u))
  {
    hide Replace, Find, RunLen;
    forall k | 0 <= k < |PLACEHOLDER| ensures Find(p, PLACEHOLDER[k..] + u).None? {
      if p == UrlUserinfo {
        NoUrlInPlaceholder(k, u);
      } else {
        var t := PLACEHOLDER[k..] + u;
        assert t[0] == PLACEHOLDER[k];
        if Find(p, t).Some? { HitStart(p, t); }
      }
    }
    ReplaceBehind(p, PLACEHOLDER, u);
    SameFirst(p, u);
  }

  lemma NoUrlInPlaceholder(k: nat, u: string)
    requires k < |PLACEHOLDER|
    ensures Find(UrlUserinfo, PLACEHOLDER[k..] + u).None?
  {
    hide RunLen, Find;
    var t := PLACEHOLDER[k..] + u;
    assert t[0] == PLACEHOLDER[k];
    if 0 < k < 9 {
      PlaceholderSchemeRun(k, u);
      NoUrlAfterRun(t, 9 - k);
    } else {
      NoHitAt(UrlUserinfo, t, 0);
      assert t[0..] == t;
    }
  }

  lemma PlaceholderSchemeRun(k: nat, u: string)
    requires 0 < k < 9
    ensures var t := PLACEHOLDER[k..] + u; RunLen(SchemeChar, t) == 9 - k && t[9 - k] == ']'
  {
    hide RunLen;
    var t := PLACEHOLDER[k..] + u;
    forall j | 0 <= j < 9 - k ensures In(SchemeChar, t[j]) {
      assert t[j] == PLACEHOLDER[k + j];
    }
    assert t[9 - k] == PLACEHOLDER[9];
    RunLenIs(SchemeChar, t, 9 - k);
  }

  lemma NoUrlAfterRun(t: string, r: nat)
    requires RunLen(SchemeChar, t) == r < |t| && t[r] != ':'
    ensures Find(UrlUserinfo, t).None?
  {
    hide RunLen, In;
    assert t[r..][0] != "://"[0];
  }

  // ---- pass 2 keeps assignments masked ----

  /** No URL starts in a text without `/` that the next character cannot continue into one. */
  lemma NoUrlBefore(s: string, n: nat, k: nat)
    requires k < n <= |s| && forall j :: 0 <= j < n ==> s[j] != '/'
    requires n < |s| ==> !In(SchemeChar, s[n]) && s[n] != ':' && s[n] != '/'
    ensures Find(UrlUserinfo, s[k..]).None?
  {
    hide RunLen;
    var t := s[k..];
    var r := RunLen(SchemeChar, t);
    if k + r + 1 < |s| {
      assert t[r] == s[k + r] && t[r + 1] == s[k + r + 1];
    }
    assert !StartsWith(t[r..], "://") by {
      if |t[r..]| >= 3 {
        assert t[r..][0] != ':' || t[r..][1] != '/';
      }
    }
  }

  lemma {:induction false} UrlPassKeepsAssignments(s: string)
    requires AllMasked(Assignment, s)
    ensures AllMasked(Assignment, Replace(UrlUserinfo, s))
  {
    hide Find, Replace;
    ReplaceStep(UrlUserinfo, s);
    var out := Replace(UrlUserinfo, s);
    if s != "" {
      match Find(UrlUserinfo, s)
      case None =>
        UrlPassKeepsAssignments(s[1..]);
        assert out[1..] == Replace(UrlUserinfo, s[1..]);
        UrlPassAssignmentHere(s);
        MaskedHere(Assignment, out);
      case Some(h) =>
        AllMaskedDrop(Assignment, s, h.end);
        UrlPassKeepsAssignments(s[h.end..]);
        var rest := PLACEHOLDER + "@" + Replace(UrlUserinfo, s[h.end..]);
        AllMaskedBehind(Assignment, PLACEHOLDER + "@", Replace(UrlUserinfo, s[h.end..]));
        NoNameInScheme(s, h.keep, 0, rest);
        assert out == s[0..h.keep] + rest;
    }
  }

  lemma {:induction false} NoNameInScheme(s: string, n: nat, k: nat, rest: string)
    requires UrlHead(s) == Some(n) && k <= n && AllMasked(Assignment, rest)
    ensures AllMasked(Assignment, s[k..n] + rest)
    decreases n - k
  {
    hide RunLen, Find, UrlHead;
    if k == n {
      assert s[k..n] + rest == rest;
    } else {
      NoNameInScheme(s, n, k + 1, rest);
      var t := s[k..n] + rest;
      assert t[1..] == s[k + 1..n] + rest;
      if Find(Assignment, t).Some? {
        NoNameAt(s, n, k, t);
      }
    }
  }

  lemma SchemeShape(s: string, n: nat)
    requires UrlHead(s) == Some(n)
    ensures 4 <= n <= |s| && s[n - 3] == ':' && s[n - 2] == '/' && s[n - 1] == '/'
    ensures forall k :: 0 <= k < n - 3 ==> In(SchemeChar, s[k])
  {
    hide RunLen;
    var r := n - 3;
    assert In(SchemeChar, s[0]);
    var t := s[r..][..3];
    assert t == "://" && t[0] == s[r] && t[1] == s[r + 1] && t[2] == s[r + 2];
    assert r > 0;
  }

  lemma NoNameAt(s: string, n: nat, k: nat, t: string)
    requires UrlHead(s) == Some(n) && k < n && n - k <= |t| && t[..n - k] == s[k..n]
    ensures FirstWord(ASSIGNMENT_NAMES, t).None?
  {
    hide RunLen, FirstWord, UrlHead, StartsWith;
    SchemeShape(s, n);
    forall w | w in ASSIGNMENT_NAMES ensures !StartsWith(t, w) {
      NotThisName(s, n, k, t, w);
    }
  }

  lemma NotThisName(s: string, n: nat, k: nat, t: string, w: string)
    requires 4 <= n <= |s| && s[n - 3] == ':' && s[n - 2] == '/' && s[n - 1] == '/'
    requires forall j :: 0 <= j < n - 3 ==> In(SchemeChar, s[j])
    requires k < n && n - k <= |t| && t[..n - k] == s[k..n] && w in ASSIGNMENT_NAMES
    ensures !StartsWith(t, w)
  {
    NameUnderscore(w);
    var c := n - 3;
    var j := if w[2] == '_' then 2 else 9;
    var i := if k > c then 0 else if c - k <= j then c - k else j;
    assert t[i] == t[..n - k][i] == s[k..n][i] == s[k + i];
    assert t[i] != w[i];
    if |w| <= |t| {
      assert t[..|w|][i] == t[i];
    }
  }

  lemma NameUnderscore(w: string)
    requires w in ASSIGNMENT_NAMES
    ensures |w| > 9 && (w[2] == '_' || w[9] == '_') && w[0] == 'F'
    ensures forall k :: 0 <= k < |w| ==> 'A' <= w[k] <= 'Z' || w[k] == '_'
  {
  }

  lemma UrlPassAssignmentHere(s: string)
    requires s != "" && AllMasked(Assignment, s)
    ensures var out := Replace(UrlUserinfo, s); var h := Find(Assignment, out);
            h.Some? ==> out[..h.value.end] == Masked(Assignment, out, h.value)
  {
    hide Replace, RunLen, AssignmentHead, AllMasked;
    var out := Replace(UrlUserinfo, s);
    if Find(Assignment, out).Some? {
      var n := Find(Assignment, out).value.keep;
      AssignmentHeadChars(out, n);
      PassLead(UrlUserinfo, s, n);
      forall j | 0 <= j < n ensures s[j] != '/' {
        SameAt(s, out, n, j);
      }
      if n < |s| {
        UrlValueStart(s, n, out);
      }
      forall k | 0 <= k < n ensures Find(UrlUserinfo, s[k..]).None? {
        NoUrlBefore(s, n, k);
      }
      ReplaceCopied(UrlUserinfo, s, n);
      assert out[n..] == Replace(UrlUserinfo, s[n..]);
      assert out[n..][0] == out[n];
      SurvivingValue(UrlUserinfo, s, n, out);
    }
  }

  /** After the head of a masked assignment stands a placeholder or the end of the value. */
  lemma UrlValueStart(s: string, n: nat, out: string)
    requires n < |s| && n <= |out| && s[..n] == out[..n] && AssignmentHead(out) == Some(n) && AllMasked(Assignment, s)
    ensures !In(SchemeChar, s[n]) && s[n] != ':' && s[n] != '/'
  {
    hide RunLen, AssignmentHead, AllMasked;
    if In(ValueChar, s[n]) {
      AssignmentHeadLocal(s, out, n);
      var u := MaskedValue(s, n);
      assert s[n..][0] == s[n];
    }
  }

  // ---- pass 2 masks every userinfo ----

  /** The userinfo run of a text, and the character after it, survive pass 2. */
  lemma {:induction false} UrlKeepsUserinfo(v: string)
    ensures var m := RunLen(UserinfoChar, v);
            if m == |v| then Replace(UrlUserinfo, v) == v
            else m < |Replace(UrlUserinfo, v)| && Replace(UrlUserinfo, v)[..m + 1] == v[..m + 1]
  {
    hide Find, Replace, Masked;
    ReplaceStep(UrlUserinfo, v);
    if v != "" {
      var m := RunLen(UserinfoChar, v);
      match Find(UrlUserinfo, v)
      case Some(h) =>
        UrlHitShape(v, h);
        MaskedUrlText(v, h);
      case None =>
        if m > 0 {
          UrlKeepsUserinfo(v[1..]);
          if m < |v| {
            assert v[..m + 1] == [v[0]] + v[1..][..m];
          } else {
            assert v == [v[0]] + v[1..];
          }
        }
    }
  }

  /** A match's userinfo run stops at its own `//`. */
  lemma UrlHitShape(v: string, h: Hit)
    requires Find(UrlUserinfo, v) == Some(h)
    ensures UrlHead(v) == Some(h.keep) && RunLen(UserinfoChar, v) == h.keep - 2
  {
    hide RunLen, UrlHead;
    SchemeRun(v, h.keep);
  }

  /** Read as userinfo, a scheme runs up to and including its colon. */
  lemma SchemeRun(v: string, n: nat)
    requires UrlHead(v) == Some(n)
    ensures n > 3 && RunLen(UserinfoChar, v) == n - 2
  {
    hide RunLen, UrlHead;
    SchemeShape(v, n);
    forall k | 0 <= k < n - 2 ensures In(UserinfoChar, v[k]) {
      if k < n - 3 { assert In(SchemeChar, v[k]); }
    }
    RunLenIs(UserinfoChar, v, n - 2);
  }

  lemma MaskedUrlText(v: string, h: Hit)
    requires Find(UrlUserinfo, v) == Some(h)
    ensures Replace(UrlUserinfo, v) == v[..h.keep] + (PLACEHOLDER + "@" + Replace(UrlUserinfo, v[h.end..]))
    ensures forall m: nat :: m <= h.keep ==> m <= |Replace(UrlUserinfo, v)| && Replace(UrlUserinfo, v)[..m] == v[..m]
  {
    hide Find, Replace, Masked;
    ReplaceStep(UrlUserinfo, v);
    var more := Replace(UrlUserinfo, v[h.end..]);
    MaskedParts(UrlUserinfo, v, h, more);
    assert PLACEHOLDER + ("@" + more) == PLACEHOLDER + "@" + more;
    TakeOfConcat(v, h.keep, PLACEHOLDER + "@" + more);
  }

  lemma TakeOfConcat(v: string, n: nat, rest: string)
    requires n <= |v|
    ensures forall m: nat :: m <= n ==> (v[..n] + rest)[..m] == v[..m]
  {
    forall m: nat | m <= n ensures (v[..n] + rest)[..m] == v[..m] {
      assert v[..n][..m] == v[..m];
    }
  }

  /** A head followed by `[REDACTED]@` is a masked match, and so is each later start in its scheme. */
  lemma {:induction false} MaskedUrlAt(s: string, n: nat, k: nat, rest: string)
    requires UrlHead(s) == Some(n) && k <= n && AllMasked(UrlUserinfo, rest)
    ensures AllMasked(UrlUserinfo, s[k..n] + (PLACEHOLDER + "@" + rest))
    decreases n - k
  {
    hide RunLen, Find, UrlHead, AllMasked;
    var tail := PLACEHOLDER + "@" + rest;
    var t := s[k..n] + tail;
    if k == n {
      AllMaskedBehind(UrlUserinfo, "@", rest);
      PlaceholderIsNoUrl(0, "@" + rest);
      assert t == PLACEHOLDER[0..] + ("@" + rest);
    } else {
      MaskedUrlAt(s, n, k + 1, rest);
      assert t[1..] == s[k + 1..n] + tail;
      if Find(UrlUserinfo, t).Some? {
        UrlInHead(s, n, k, t, rest);
      }
      MaskedHere(UrlUserinfo, t);
    }
  }

  /** A URL head read from one of its later characters. */
  lemma HeadSuffix(s: string, n: nat, k: nat)
    requires UrlHead(s) == Some(n) && k < n
    ensures UrlHead(s[k..]) == if k < n - 3 && IsLetter(s[k]) then Some(n - k) else None
  {
    hide RunLen;
    SchemeShape(s, n);
    var t := s[k..];
    var c := n - 3;
    if k < c {
      forall j | 0 <= j < c - k ensures In(SchemeChar, t[j]) { assert t[j] == s[k + j]; }
      RunLenIs(SchemeChar, t, c - k);
      assert t[c - k..] == s[c..];
    }
  }

  lemma UrlInHead(s: string, n: nat, k: nat, t: string, rest: string)
    requires UrlHead(s) == Some(n) && k < n && t == s[k..n] + (PLACEHOLDER + "@" + rest)
    requires Find(UrlUserinfo, t).Some?
    ensures t[..Find(UrlUserinfo, t).value.end] == Masked(UrlUserinfo, t, Find(UrlUserinfo, t).value)
  {
    hide RunLen, UrlHead, Find;
    var tail := PLACEHOLDER + "@" + rest;
    var whole := s[..n] + tail;
    assert whole[..n] == s[..n];
    UrlHeadLocal(whole, s, n);
    assert whole[k..] == t;
    HeadSuffix(whole, n, k);
    HeadOfHit(t);
    UserinfoPlaceholder(rest);
    MaskedUrlHit(t, n - k, tail);
  }

  lemma HeadOfHit(t: string)
    requires Find(UrlUserinfo, t).Some?
    ensures UrlHead(t).Some?
  {
    hide UrlHead, RunLen;
  }

  lemma MaskedUrlHit(t: string, m: nat, tail: string)
    requires UrlHead(t) == Some(m) && t[m..] == tail && RunLen(UserinfoChar, tail) == 10
    requires |tail| > 10 && tail[..11] == PLACEHOLDER + "@" && tail[10] == '@'
    ensures Find(UrlUserinfo, t) == Some(Hit(m, m + 11))
    ensures t[..m + 11] == Masked(UrlUserinfo, t, Hit(m, m + 11))
  {
    hide UrlHead, RunLen;
    assert |t| == m + |tail|;
    assert t[m + 10] == tail[10];
    assert t[..m + 11] == t[..m] + tail[..11];
  }

  lemma UserinfoPlaceholder(rest: string)
    ensures var t := PLACEHOLDER + "@" + rest;
            RunLen(UserinfoChar, t) == 10 && |t| > 10 && t[..11] == PLACEHOLDER + "@" && t[10] == '@'
  {
    hide RunLen;
    var t := PLACEHOLDER + "@" + rest;
    forall j | 0 <= j < 10 ensures In(UserinfoChar, t[j]) { assert t[j] == PLACEHOLDER[j]; }
    RunLenIs(UserinfoChar, t, 10);
  }

  lemma {:induction false} PlaceholderIsNoUrl(k: nat, u: string)
    requires k <= 10 && AllMasked(UrlUserinfo, u)
    ensures AllMasked(UrlUserinfo, PLACEHOLDER[k..] + u)
    decreases 10 - k
  {
    hide Find, AllMasked;
    var t := PLACEHOLDER[k..] + u;
    if k == 10 {
      assert t == u;
    } else {
      PlaceholderIsNoUrl(k + 1, u);
      NoUrlInPlaceholder(k, u);
      assert t[1..] == PLACEHOLDER[k + 1..] + u;
      MaskedHere(UrlUserinfo, t);
    }
  }

  lemma {:induction false} UrlPass(s: string)
    ensures AllMasked(UrlUserinfo, Replace(UrlUserinfo, s))
  {
    hide Find, Replace, AllMasked;
    ReplaceStep(UrlUserinfo, s);
    var out := Replace(UrlUserinfo, s);
    if s == "" {
      NothingIn(UrlUserinfo);
    } else {
      match Find(UrlUserinfo, s)
      case None =>
        UrlPass(s[1..]);
        assert out[1..] == Replace(UrlUserinfo, s[1..]);
        NoNewUrl(s);
        MaskedHere(UrlUserinfo, out);
      case Some(h) =>
        UrlPass(s[h.end..]);
        MaskedUrlText(s, h);
        UrlHitShape(s, h);
        MaskedUrlAt(s, h.keep, 0, Replace(UrlUserinfo, s[h.end..]));
        assert s[0..h.keep] == s[..h.keep];
    }
  }

  lemma NothingIn(p: Pass)
    ensures AllMasked(p, "")
  {
  }

  lemma UrlHeadLocal(s: string, t: string, n: nat)
    requires UrlHead(t) == Some(n) && n <= |s| && s[..n] == t[..n]
    ensures UrlHead(s) == Some(n)
  {
    hide RunLen;
    SchemeShape(t, n);
    var c := n - 3;
    RunPrefix(SchemeChar, s, t, n);
    SameAt(s, t, n, 0);
    TailPrefix(s, t, n, c);
    assert s[c..][..3] == t[c..][..3];
  }

  /** Copying a character that starts no URL match cannot complete one. */
  lemma NoNewUrl(s: string)
    requires s != "" && Find(UrlUserinfo, s).None?
    ensures Find(UrlUserinfo, Replace(UrlUserinfo, s)).None?
  {
    hide Replace, RunLen, UrlHead, AllMasked, In;
    var out := Replace(UrlUserinfo, s);
    if Find(UrlUserinfo, out).Some? {
      var n := Find(UrlUserinfo, out).value.keep;
      SchemeShape(out, n);
      SchemeNoBracket(out, n);
      PassLead(UrlUserinfo, s, n);
      UrlHeadLocal(s, out, n);
      forall k | 0 <= k < n ensures Find(UrlUserinfo, s[k..]).None? {
        NoUrlInside(s, n, k);
      }
      ReplaceCopied(UrlUserinfo, s, n);
      var v, w := s[n..], out[n..];
      assert w == Replace(UrlUserinfo, v);
      UrlKeepsUserinfo(v);
      SameUserinfo(v, w);
    }
  }

  lemma SchemeNoBracket(t: string, n: nat)
    requires UrlHead(t) == Some(n)
    ensures n <= |t| && forall k :: 0 <= k < n ==> t[k] != '['
  {
    hide UrlHead;
    SchemeShape(t, n);
    forall k | 0 <= k < n ensures t[k] != '[' {
      if k < n - 3 { assert In(SchemeChar, t[k]); }
    }
  }

  lemma SameUserinfo(v: string, w: string)
    requires var m := RunLen(UserinfoChar, v); if m == |v| then w == v else m < |w| && w[..m + 1] == v[..m + 1]
    ensures var m := RunLen(UserinfoChar, v);
            RunLen(UserinfoChar, w) == m && (m < |v| ==> m < |w| && w[m] == v[m]) && (m == |v| ==> m == |w|)
  {
    hide RunLen, In;
    if RunLen(UserinfoChar, v) < |v| { RunCopied(v, w, RunLen(UserinfoChar, v)); }
  }

  lemma RunCopied(v: string, w: string, m: nat)
    requires m == RunLen(UserinfoChar, v) && m < |v| && m < |w| && w[..m + 1] == v[..m + 1]
    ensures RunLen(UserinfoChar, w) == m && w[m] == v[m]
  {
    hide RunLen, In;
    SameAt(w, v, m + 1, m);
    RunPrefix(UserinfoChar, w, v, m + 1);
  }

  /** When a text's own head has no masked continuation, no later start within the head has one. */
  lemma NoUrlInside(s: string, n: nat, k: nat)
    requires UrlHead(s) == Some(n) && Find(UrlUserinfo, s).None? && k < n
    ensures Find(UrlUserinfo, s[k..]).None?
  {
    hide RunLen, UrlHead;
    HeadSuffix(s, n, k);
    var t := s[k..];
    assert t[n - k..] == s[n..];
    var m := RunLen(UserinfoChar, s[n..]);
    if n + m < |s| {
      assert s[n + m] == t[n - k + m];
    }
  }
}
