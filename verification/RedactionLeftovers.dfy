/** What an input can leave behind in its redacted text, told from the input alone. */
module RedactionLeftovers {
  import opened Optional
  import opened Redaction
  import opened RedactionNeedles
  import opened RedactionMasks
  import opened RedactionTwice
  import opened RedactionFusion
  import opened RedactionReading
  import opened RedactionSpaces

  /** The three things the passes overlook. */
  datatype Leftover =
    | WideToken       // a bearer token behind whitespace that is not all ASCII
    | WideValue       // an assignment with such whitespace around its marker
    | HiddenUserinfo  // URL userinfo that only shows once an assignment in it is masked

  /** Where the first secret character of a wide bearer token stands. */
  function WideTokenAt(s: string): (r: Option<nat>)
    ensures r.Some? ==> 6 < r.value < |s|
  {
    if !StartsWith(s, "Bearer") then None
    else
      var n := 6 + RunLen(White, s[6..]);
      if 6 < n < |s| && In(TokenChar, s[n]) then Some(n) else None
  }

  /** The value ends here for the redactor's reader: at the end, at whitespace, or where values end. */
  predicate Stops(u: string) { u == "" || IsWhite(u[0]) || !In(ValueChar, u[0]) }

  /** The value that starts here is the placeholder already, or is a key value that pass 4 masks whole. */
  predicate ReadsPlaceholder(u: string) {
    match Find(KeyValue, u)
    case Some(k) => Stops(u[k.end..])
    case None => StartsWith(u, PLACEHOLDER) && Stops(u[|PLACEHOLDER|..])
  }

  predicate NoWhite(s: string) { forall k :: 0 <= k < |s| ==> !IsWhite(s[k]) }

  /** From here userinfo goes on to an `@`, over whole assignments whose values may hold anything. */
  predicate Reaches(t: string) {
    t != "" &&
    match Assigned(t)
    case Some(c) => NoWhite(t[..c.keep]) && c.after == "" && Reaches(t[c.end..])
    case None => t[0] == '@' || (In(UserinfoChar, t[0]) && !IsWhite(t[0]) && Reaches(t[1..]))
  }

  /** The thing overlooked starts where `s` starts, at a place that no pass rewrites. */
  predicate Here(lo: Leftover, s: string) {
    match lo
    case WideToken =>
      (match WideTokenAt(s) case Some(n) => Find(KeyValue, s[n..]).None? case None => false)
    case WideValue =>
      (match Find(Assignment, Spaced(s)) case Some(h) => !ReadsPlaceholder(s[h.keep..]) case None => false)
    case HiddenUserinfo =>
      match UrlHead(s) case Some(n) => n < |s| && s[n] != '@' && Reaches(s[n..]) case None => false
  }

  /** The reading of `Fused` comes to a place where `lo` starts. */
  predicate Left(lo: Leftover, s: string, m: nat) {
    s != "" &&
    match CoverAt(s)
    case Some(c) => Left(lo, s[c.end..], 0)
    case None =>
      if m > 0 then Left(lo, s[1..], m - 1)
      else
        match Find(KeyValue, s)
        case Some(k) => Left(lo, s[1..], k.end - 1)
        case None => Here(lo, s) || Left(lo, s[1..], 0)
  }

  /** `x` leaves nothing of this kind behind. */
  predicate LeavesNo(lo: Leftover, x: string) { !Left(lo, x, 0) }

  lemma LeftStep(lo: Leftover, s: string, m: nat)
    ensures s == "" ==> !Left(lo, s, m)
    ensures s != "" && CoverAt(s).Some? ==> Left(lo, s, m) == Left(lo, s[CoverAt(s).value.end..], 0)
    ensures s != "" && CoverAt(s).None? && m > 0 ==> Left(lo, s, m) == Left(lo, s[1..], m - 1)
    ensures s != "" && CoverAt(s).None? && m == 0 && Find(KeyValue, s).Some? ==>
              Left(lo, s, m) == Left(lo, s[1..], Find(KeyValue, s).value.end - 1)
    ensures s != "" && CoverAt(s).None? && m == 0 && Find(KeyValue, s).None? ==>
              Left(lo, s, m) == (Here(lo, s) || Left(lo, s[1..], 0))
  {
    hide CoverAt, Find, Here;
  }

  // ---- places where nothing is rewritten ----

  /** Nothing is rewritten where `s` starts. */
  predicate Quiet(s: string) { CoverAt(s).None? && Find(KeyValue, s).None? }

  lemma AssignedStart(s: string)
    requires Assigned(s).Some?
    ensures s != "" && s[0] == 'F' && FirstWord(ASSIGNMENT_NAMES, s).Some?
  {
    hide FirstWord, Find, NameTail, ValueOf;
    var w := FirstWord(ASSIGNMENT_NAMES, s).value;
    NameChars(w);
    assert s[..|w|][0] == w[0];
  }

  lemma CoverStart(s: string)
    requires CoverAt(s).Some? || Find(KeyValue, s).Some?
    ensures s != "" && IsLetter(s[0])
  {
    hide CoverAt, Find, Assigned;
    if CoverAt(s).Some? {
      var c := CoverAt(s).value;
      CoverCases(s, c);
      if Assigned(s) == Some(c) { AssignedStart(s); }
      else if Find(Bearer, s) == Some(Hit(c.keep, c.end)) { HitStart(Bearer, s); }
      else { HitStart(UrlUserinfo, s); }
    } else {
      HitStart(KeyValue, s);
    }
  }

  lemma NoLetterQuiet(s: string)
    requires s == "" || !IsLetter(s[0])
    ensures Quiet(s)
  {
    hide CoverAt, Find;
    if !Quiet(s) { CoverStart(s); }
  }

  lemma {:induction false} FusedBehind(w: string, t: string)
    requires forall k :: 0 <= k < |w| ==> Quiet(w[k..] + t)
    ensures Fused(w + t, 0) == w + Fused(t, 0)
  {
    hide Find, CoverAt, Fused;
    if w == "" {
      assert w + t == t;
    } else {
      assert w[0..] == w;
      FusedStep(w + t, 0);
      forall k | 0 <= k < |w[1..]| ensures Quiet(w[1..][k..] + t) {
        assert w[1..][k..] == w[k + 1..];
      }
      FusedBehind(w[1..], t);
      assert (w + t)[1..] == w[1..] + t;
    }
  }

  /** Masking copies the first `n` characters when nothing is rewritten where they stand. */
  lemma QuietCopied(s: string, n: nat)
    requires n <= |s| && forall k :: 0 <= k < n ==> Quiet(s[k..])
    ensures Fused(s, 0) == s[..n] + Fused(s[n..], 0)
  {
    hide Fused, Quiet;
    var w, t := s[..n], s[n..];
    assert w + t == s;
    forall k | 0 <= k < |w| ensures Quiet(w[k..] + t) {
      assert w[k..] + t == s[k..];
    }
    FusedBehind(w, t);
  }

  /** The text before the first `[` is the same before and after masking. */
  lemma FusedLead(s: string, n: nat)
    requires n <= |Fused(s, 0)| && '[' !in Fused(s, 0)[..n]
    ensures n <= |s| && s[..n] == Fused(s, 0)[..n]
  {
    hide Replace, Fused;
    MaskAllFused(s);
    var a := Replace(Bearer, s);
    var b := Replace(UrlUserinfo, a);
    var c := Replace(Assignment, b);
    PassLead(KeyValue, c, n);
    PassLead(Assignment, b, n);
    PassLead(UrlUserinfo, a, n);
    PassLead(Bearer, s, n);
  }

  /** No key value starts where the other passes rewrite. */
  lemma CoverNoKey(s: string)
    requires CoverAt(s).Some?
    ensures Find(KeyValue, s).None?
  {
    hide CoverAt, Find, Assigned, UrlHead;
    var c := CoverAt(s).value;
    CoverCases(s, c);
    if Assigned(s) == Some(c) {
      AssignedStart(s);
      NoHitAt(KeyValue, s, 0);
      assert s[0..] == s;
    } else if Find(Bearer, s) == Some(Hit(c.keep, c.end)) {
      HitStart(Bearer, s);
      NoHitAt(KeyValue, s, 0);
      assert s[0..] == s;
    } else {
      UrlHitShape(s, Hit(c.keep, c.end));
      NoKeyInScheme(s, c.keep, 0, s[c.keep..]);
      assert s[0..c.keep] + s[c.keep..] == s;
    }
  }

  /** Masking keeps the first character unless a key value starts there. */
  lemma FusedFirst(s: string)
    ensures s == "" <==> Fused(s, 0) == ""
    ensures s != "" ==> Fused(s, 0)[0] == if Find(KeyValue, s).Some? then '[' else s[0]
  {
    hide Find, CoverAt, Fused;
    FusedStep(s, 0);
    if s != "" && CoverAt(s).Some? {
      CoverNoKey(s);
      var c := CoverAt(s).value;
      assert Rest(s, 0, c.keep)[0] == s[0];
    }
  }

  // ---- bearer tokens ----

  lemma WideTokenIs(s: string)
    ensures NeedleLen(WideBearer, s).Some? <==> WideTokenAt(s).Some?
    ensures WideTokenAt(s).Some? ==> StartsWith(s, "Bearer")
  {
    hide RunLen;
  }

  /** One character is enough to tell that no wide bearer token starts here. */
  lemma NotWide(t: string, j: nat)
    requires j < |t| && if j < 6 then t[j] != "Bearer"[j] else j == 6 && !IsWhite(t[j])
    ensures NeedleLen(WideBearer, t).None?
  {
    hide RunLen;
    if StartsWith(t, "Bearer") {
      WordChars(t, "Bearer");
      WideRunZero(t[6..]);
    }
  }

  lemma WideRunZero(t: string)
    ensures t != "" && !IsWhite(t[0]) ==> RunLen(White, t) == 0
  {
  }

  lemma {:induction false} AbsentBehindOf(nd: Needle, w: string, t: string)
    requires Absent(nd, t) && forall k :: 0 <= k < |w| ==> NeedleLen(nd, w[k..] + t).None?
    ensures Absent(nd, w + t)
  {
    hide NeedleLen;
    if w == "" {
      assert w + t == t;
    } else {
      assert w[0..] == w;
      forall k | 0 <= k < |w[1..]| ensures NeedleLen(nd, w[1..][k..] + t).None? {
        assert w[1..][k..] == w[k + 1..];
      }
      AbsentBehindOf(nd, w[1..], t);
      assert (w + t)[1..] == w[1..] + t;
    }
  }

  /** The next character tells that no wide bearer token starts in `w`. */
  lemma HeadNotWide(s: string, c: Cover, k: nat, t: string)
    requires CoverAt(s) == Some(c) && k < c.keep && t != "" && t[0] == '['
    ensures NeedleLen(WideBearer, s[k..c.keep] + t).None?
  {
    hide CoverAt, Find, Assigned, NeedleLen, AssignmentHead, IsSpace, IsWhite, In;
    CoverCases(s, c);
    if Assigned(s) == Some(c) {
      var u := AssignedText(s, c);
      AssignedNotWide(s, c.keep, k, t);
    } else if Find(Bearer, s) == Some(Hit(c.keep, c.end)) {
      BearerNotWide(s, Hit(c.keep, c.end), k, t);
    } else {
      UrlHitShape(s, Hit(c.keep, c.end));
      UrlNotWide(s, c.keep, k, t);
    }
  }

  lemma AssignedNotWide(s: string, n: nat, k: nat, t: string)
    requires AssignmentHead(s) == Some(n) && k < n && t != "" && t[0] == '['
    ensures NeedleLen(WideBearer, s[k..n] + t).None?
  {
    hide NameTail, FirstWord, In, IsSpace, NeedleLen;
    var w := FirstWord(ASSIGNMENT_NAMES, s).value;
    NameUnderscore(w);
    WordChars(s, w);
    NameTailChars(s[|w|..], n - |w|);
    var z := s[k..n] + t;
    forall j | 0 <= j < n ensures s[j] != 'e' {
      if j >= |w| { assert s[|w|..][j - |w|] == s[j]; }
      NoSmallE(s[j]);
    }
    NotWide(z, 1);
  }

  lemma NoSmallE(c: char)
    requires 'A' <= c <= 'Z' || c == '_' || IsSpace(c) || In(Marker, c) || In(Quote, c)
    ensures c != 'e'
  {
  }

  lemma BearerNotWide(s: string, h: Hit, k: nat, t: string)
    requires Find(Bearer, s) == Some(h) && k < h.keep && t != "" && t[0] == '['
    ensures NeedleLen(WideBearer, s[k..h.keep] + t).None?
  {
    hide Find, RunLen;
    BearerShape(s, h);
    var z := s[k..h.keep] + t;
    assert z[0] == s[k];
    if k > 0 {
      NotWide(z, 0);
    } else {
      var n := h.keep - 6;
      forall j | 0 <= j < n ensures In(White, z[6..][j]) { assert z[6..][j] == s[6 + j]; }
      assert z[6..][n] == '[';
      RunLenIs(White, z[6..], n);
      assert z[6 + n] == '[';
    }
  }

  lemma UrlNotWide(s: string, n: nat, k: nat, t: string)
    requires UrlHead(s) == Some(n) && k < n && t != "" && t[0] == '['
    ensures n <= |s| && NeedleLen(WideBearer, s[k..n] + t).None?
  {
    hide UrlHead, NeedleLen;
    SchemeShape(s, n);
    var z := s[k..n] + t;
    var j := if k + 6 < n then 6 else n - 1 - k;
    assert z[j] == s[k + j];
    if k + j < n - 3 { assert In(SchemeChar, s[k + j]); }
    NotWide(z, j);
  }

  lemma CoverWide(s: string, c: Cover, m: nat, u: string)
    requires CoverAt(s) == Some(c)
    ensures Absent(WideBearer, Rest(s, m, c.keep) + (PLACEHOLDER + (c.after + u))) <==> Absent(WideBearer, u)
  {
    hide CoverAt, NeedleLen, Absent, IsSpace, Assigned, Find, CanStart;
    var w, t := Rest(s, m, c.keep), PLACEHOLDER + (c.after + u);
    var all := w + t;
    if Absent(WideBearer, all) {
      AbsentDrop(WideBearer, all, |all| - |u|);
      assert all[|all| - |u|..] == u;
    }
    if Absent(WideBearer, u) {
      AfterNoB(s, c);
      AbsentBehind(WideBearer, c.after, u);
      AbsentBehind(WideBearer, PLACEHOLDER, c.after + u);
      forall k | 0 <= k < |w| ensures NeedleLen(WideBearer, w[k..] + t).None? {
        assert w[k..] == s[m + k..c.keep];
        HeadNotWide(s, c, m + k, t);
      }
      AbsentBehindOf(WideBearer, w, t);
    }
  }

  /** What stands behind the placeholder of a rewritten place. */
  lemma CoverAfter(s: string, c: Cover)
    requires CoverAt(s) == Some(c)
    ensures forall k :: 0 <= k < |c.after| ==> IsSpace(c.after[k]) || c.after[k] in PLACEHOLDER || c.after[k] == '@'
    ensures Assigned(s) == Some(c) && c.after != "" ==> IsSpace(c.after[0])
  {
    hide CoverAt, IsSpace, Assigned, Find;
    CoverCases(s, c);
    if Assigned(s) == Some(c) {
      var at := AssignedFrom(s, c);
      AfterChars(s[at..]);
    }
  }

  /** The value of an assignment, and where it starts to be read. */
  lemma AssignedFrom(s: string, c: Cover) returns (at: nat)
    requires Assigned(s) == Some(c)
    ensures at <= c.end <= |s| && c.end == at + ValueOf(s[at..]).len && c.after == ValueOf(s[at..]).after
  {
    hide Find, ValueOf, RunLen, FirstWord, NameTail;
    var w := FirstWord(ASSIGNMENT_NAMES, s).value;
    NameUnderscore(w);
    var h := Find(UrlUserinfo, s[|w| - 3..]);
    at := if h.Some? && h.value.keep == 6 then |w| - 3 + h.value.end else |w| + NameTail(s[|w|..]).value;
  }

  lemma AfterNoB(s: string, c: Cover)
    requires CoverAt(s) == Some(c)
    ensures forall k :: 0 <= k < |c.after| ==> !CanStart(WideBearer, c.after[k])
    ensures forall k :: 0 <= k < |PLACEHOLDER| ==> !CanStart(WideBearer, PLACEHOLDER[k])
  {
    hide CoverAt, IsSpace, CanStart;
    CoverAfter(s, c);
    forall k | 0 <= k < |c.after| ensures !CanStart(WideBearer, c.after[k]) { NoB(c.after[k]); }
    forall k | 0 <= k < |PLACEHOLDER| ensures !CanStart(WideBearer, PLACEHOLDER[k]) { NoB(PLACEHOLDER[k]); }
  }

  lemma NoB(c: char)
    requires IsSpace(c) || c in PLACEHOLDER || c == '@'
    ensures !CanStart(WideBearer, c)
  {
  }

  lemma HeadExtends(s: string, k: nat, n: nat)
    requires k < |s| && In(Letter, s[0]) && (forall j :: 0 <= j < k ==> In(SchemeChar, s[j]))
    requires UrlHead(s[k..]) == Some(n)
    ensures UrlHead(s) == Some(k + n)
  {
    hide RunLen, In, StartsWith;
    var t := s[k..];
    assert n == RunLen(SchemeChar, t) + 3;
    assert s == s[..k] + t;
    RunOver(SchemeChar, s[..k], t);
    assert s[k + n - 3..] == t[n - 3..];
  }

  lemma LetterIn(c: char)
    requires IsLetter(c)
    ensures In(Letter, c)
  {
  }

  /** A URL reads on from an earlier scheme character. */
  lemma UrlExtends(s: string, k: nat)
    requires k < |s| && IsLetter(s[0]) && (forall j :: 0 <= j < k ==> In(SchemeChar, s[j]))
    requires Find(UrlUserinfo, s[k..]).Some?
    ensures Find(UrlUserinfo, s).Some?
  {
    hide RunLen, In, UrlHead;
    var n := UrlHead(s[k..]).value;
    LetterIn(s[0]);
    HeadExtends(s, k, n);
    assert s[k + n..] == s[k..][n..];
    var r := RunLen(UserinfoChar, s[k + n..]);
    assert k + n + r < |s| ==> s[k + n + r] == s[k..][n + r];
  }

  /** A wide bearer token whose word starts at an untouched place is untouched up to its secret. */
  lemma WideQuiet(s: string, n: nat)
    requires StartsWith(s, "Bearer") && CoverAt(s).None? && n == 6 + RunLen(White, s[6..])
    ensures forall k :: 0 <= k < n ==> Quiet(s[k..])
  {
    hide Find, CoverAt, RunLen, Assigned, CanStartHit;
    WordChars(s, "Bearer");
    forall k | 0 <= k < n ensures Quiet(s[k..]) {
      if k >= 6 {
        assert In(White, s[6..][k - 6]);
        WhiteNoLetter(s[k]);
        NoLetterQuiet(s[k..]);
      } else {
        BearerLetterQuiet(s, k);
      }
    }
  }

  lemma WhiteNoLetter(c: char)
    requires IsWhite(c)
    ensures !IsLetter(c)
  {
  }

  lemma BearerLetters()
    ensures forall k :: 0 <= k < 6 ==> In(SchemeChar, "Bearer"[k]) && IsLetter("Bearer"[k])
    ensures forall k :: 0 <= k < 6 ==>
              !CanStartHit(KeyValue, "Bearer"[k]) && "Bearer"[k] != 'F' && (k > 0 ==> !CanStartHit(Bearer, "Bearer"[k]))
  {
  }

  lemma BearerLetterQuiet(s: string, k: nat)
    requires k < 6 <= |s| && (forall j :: 0 <= j < 6 ==> s[j] == "Bearer"[j]) && CoverAt(s).None?
    ensures Quiet(s[k..])
  {
    hide Find, Assigned, CanStartHit, IsLetter, In;
    BearerLetters();
    assert s[0..] == s;
    NoHitAt(KeyValue, s, k);
    if k > 0 {
      NoHitAt(Bearer, s, k);
      if Assigned(s[k..]).Some? { AssignedStart(s[k..]); }
      if Find(UrlUserinfo, s[k..]).Some? { UrlExtends(s, k); }
    }
  }

  lemma FusedWide(s: string)
    requires s != "" && Quiet(s)
    ensures NeedleLen(WideBearer, Fused(s, 0)).Some? <==> Here(WideToken, s)
  {
    hide Find, CoverAt, Fused, RunLen, In;
    var out := Fused(s, 0);
    WideTokenIs(s);
    if StartsWith(s, "Bearer") {
      var n := 6 + RunLen(White, s[6..]);
      WideQuiet(s, n);
      QuietCopied(s, n);
      FusedFirst(s[n..]);
      WideBehind(s, n, out, Fused(s[n..], 0));
    } else if NeedleLen(WideBearer, out).Some? {
      WordChars(out, "Bearer");
      FusedLead(s, 6);
    }
  }

  lemma WideBehind(s: string, n: nat, out: string, t: string)
    requires StartsWith(s, "Bearer") && n == 6 + RunLen(White, s[6..]) && out == s[..n] + t
    requires (s[n..] == "" <==> t == "") && (n < |s| ==> t[0] == if Find(KeyValue, s[n..]).Some? then '[' else s[n])
    ensures NeedleLen(WideBearer, out).Some? <==> Here(WideToken, s)
  {
    hide Find, RunLen;
    assert out[..6] == s[..6];
    assert out[6..] == s[6..n] + t;
    forall j | 0 <= j < n - 6 ensures In(White, out[6..][j]) { assert out[6..][j] == s[6..][j]; }
    if n < |s| {
      assert s[6..][n - 6] == s[n];
      assert out[6..][n - 6] == t[0] == out[n];
    }
    RunLenIs(White, out[6..], n - 6);
  }

  /** Wide bearer tokens of the masked text are the ones the reading comes to. */
  lemma {:induction false} WideTokens(s: string, m: nat)
    ensures Absent(WideBearer, Fused(s, m)) <==> !Left(WideToken, s, m)
    decreases |s|
  {
    hide Find, CoverAt, Fused, Left, NeedleLen, Absent, Here, CanStart;
    FusedStep(s, m);
    LeftStep(WideToken, s, m);
    if s == "" {
      NothingAbsent(WideBearer);
    } else if CoverAt(s).Some? {
      var c := CoverAt(s).value;
      WideTokens(s[c.end..], 0);
      CoverWide(s, c, m, Fused(s[c.end..], 0));
    } else if m > 0 {
      WideTokens(s[1..], m - 1);
    } else if Find(KeyValue, s).Some? {
      var t := Fused(s[1..], Find(KeyValue, s).value.end - 1);
      WideTokens(s[1..], Find(KeyValue, s).value.end - 1);
      BehindPlaceholder(WideBearer, t);
    } else {
      WideTokens(s[1..], 0);
      FusedWide(s);
      AbsentStep(WideBearer, Fused(s, 0));
      assert Fused(s, 0)[1..] == Fused(s[1..], 0);
    }
  }

  lemma NothingAbsent(nd: Needle)
    ensures Absent(nd, "")
  {
  }

  lemma AbsentStep(nd: Needle, s: string)
    requires s != ""
    ensures Absent(nd, s) <==> NeedleLen(nd, s).None? && Absent(nd, s[1..])
  {
    hide NeedleLen;
  }

  lemma BehindPlaceholder(nd: Needle, t: string)
    requires nd == WideBearer
    ensures Absent(nd, PLACEHOLDER + t) <==> Absent(nd, t)
  {
    hide Absent;
    if Absent(nd, PLACEHOLDER + t) {
      AbsentDrop(nd, PLACEHOLDER + t, |PLACEHOLDER|);
    }
    if Absent(nd, t) {
      AbsentBehind(nd, PLACEHOLDER, t);
    }
  }

  /** Exactly which inputs keep a bearer token. */
  lemma {:induction false} BearerLeftIff(x: string)
    ensures NoHit(Bearer, Redact(x)) <==> LeavesNo(WideToken, x)
  {
    hide Fused, Left, Redact, MaskAll, NoHit, Absent;
    BearerLeftOnlyByWideSpace(x);
    MaskAllFused(x);
    WideTokens(x, 0);
  }
}
