/** Exactly when one application of the redactor is enough, and texts for which
    it is not. */
module RedactionLimits {
  import opened Optional
  import opened Redaction
  import opened RedactionMasks
  import opened RedactionNeedles
  import opened RedactionTwice
  import opened RedactionLeftovers
  import opened RedactionWideValues
  import opened RedactionHiddenUrls

  /** One application is final exactly for the inputs that leave nothing behind. */
  lemma {:induction false} RedactIdempotentIff(x: string)
    ensures Redact(Redact(x)) == Redact(x) <==> forall lo: Leftover :: LeavesNo(lo, x)
  {
    hide Replace, AllMasked, Redact, AsciiSpaced, NoHit, Squeeze, LeavesNo;
    var y := Redact(x);
    RedactedIsCollapsed(x);
    NoKeyValueLeft(x);
    BearerLeftIff(x);
    AssignmentLeftIff(x);
    UserinfoLeftIff(x);
    assert (forall lo: Leftover :: LeavesNo(lo, x)) <==>
           LeavesNo(WideToken, x) && LeavesNo(WideValue, x) && LeavesNo(HiddenUserinfo, x) by { LeavesAll(x); }
    if Redact(y) == y {
      NoBearerLeft(y);
      AssignmentsLeftMasked(y);
      OnlyUrlPass(y);
      UrlPass(y);
    } else if NoHit(Bearer, y) && AllMasked(Assignment, y) && AllMasked(UrlUserinfo, y) {
      OnlyUrlPass(y);
      MaskedIsFixed(UrlUserinfo, y);
    }
  }

  lemma LeavesAll(x: string)
    ensures (forall lo: Leftover :: LeavesNo(lo, x)) <==>
            LeavesNo(WideToken, x) && LeavesNo(WideValue, x) && LeavesNo(HiddenUserinfo, x)
  {
    hide LeavesNo;
    if LeavesNo(WideToken, x) && LeavesNo(WideValue, x) && LeavesNo(HiddenUserinfo, x) {
      forall lo: Leftover ensures LeavesNo(lo, x) {
        match lo case WideToken => case WideValue => case HiddenUserinfo =>
      }
    }
  }

  lemma UntouchedAll(p: Pass, w: string)
    requires forall k :: 0 <= k < |w| ==> !CanStartHit(p, w[k])
    ensures Replace(p, w) == w
  {
    hide Replace, CanStartHit;
    UnstartedCopied(p, w, "");
    ReplaceStep(p, "");
    assert w + "" == w;
  }

  // ---- an assignment inside a URL ----

  const NAME := "FIREWEAVE_KEY"
  const HIDDEN_URL := "a://" + NAME + "=/,@"
  const UNCOVERED_URL := "a://" + NAME + "=" + PLACEHOLDER + ",@"

  lemma UserinfoAfter(body: string, n: nat, t: string)
    requires n <= |body| && (forall k :: 0 <= k < n ==> In(UserinfoChar, body[k]))
    requires n > 0 && n < |body| && !In(UserinfoChar, body[n])
    requires t == "a://" + body
    ensures Find(UrlUserinfo, t) == if body[n] == '@' then Some(Hit(4, n + 5)) else None
  {
    hide RunLen;
    RunLenIs(SchemeChar, t, 1);
    assert t[1..][..3] == "://";
    assert t[4..] == body;
    RunLenIs(UserinfoChar, body, n);
  }

  lemma HiddenUrl()
    ensures Replace(UrlUserinfo, HIDDEN_URL) == HIDDEN_URL
  {
    hide Find, Replace, UrlHead, AllMasked;
    var body, t := NAME + "=/,@", "//" + NAME + "=/,@";
    assert HIDDEN_URL == "a://" + body && HIDDEN_URL[1..] == ":" + t && HIDDEN_URL == "a" + HIDDEN_URL[1..];
    UserinfoAfter(body, 14, HIDDEN_URL);
    ReplaceStep(UrlUserinfo, HIDDEN_URL);
    UnstartedCopied(UrlUserinfo, ":", t);
    NoSeparatorNoReplace(t);
  }

  lemma NoSeparatorNoReplace(s: string)
    requires forall k :: 0 <= k < |s| ==> s[k] != ':'
    ensures Replace(UrlUserinfo, s) == s
  {
    hide *;
    NoSeparatorBefore(s);
    NoSeparatorNoUrl(s);
    MaskedIsFixed(UrlUserinfo, s);
  }

  lemma {:induction false} NoSeparatorBefore(s: string)
    requires forall k :: 0 <= k < |s| ==> s[k] != ':'
    ensures Absent(Separator, s)
  {
    if s != "" {
      NoSeparatorBefore(s[1..]);
      assert s[0] != "://"[0];
    }
  }

  lemma NameHit(t: string)
    requires t == NAME + "=/,@"
    ensures Find(Assignment, t) == Some(Hit(14, 15))
  {
    hide RunLen;
    assert t[..|NAME|] == NAME && ASSIGNMENT_NAMES[0] == NAME;
    var tail := t[|NAME|..];
    assert tail == "=/,@" && t[14..] == "/,@";
    RunLenIs(Space, tail, 0);
    RunLenIs(Space, tail[1..], 0);
    RunLenIs(ValueChar, t[14..], 1);
  }

  lemma CopiedChars()
    ensures forall k :: 0 <= k < 4 ==> !CanStartHit(Assignment, "a://"[k])
    ensures forall k :: 0 <= k < 2 ==> !CanStartHit(Assignment, ",@"[k])
  {
  }

  lemma UncoverUrl()
    ensures Replace(Assignment, HIDDEN_URL) == UNCOVERED_URL
  {
    hide Replace, Find, CanStartHit;
    var t := NAME + "=/,@";
    CopiedChars();
    UnstartedCopied(Assignment, "a://", t);
    assert HIDDEN_URL == "a://" + t;
    NameHit(t);
    ReplaceStep(Assignment, t);
    assert t[..14] == NAME + "=" && t[15..] == ",@";
    UntouchedAll(Assignment, ",@");
    assert "a://" + (NAME + "=" + PLACEHOLDER + "" + ",@") == UNCOVERED_URL;
  }

  /** Without whitespace the collapse changes nothing. */
  lemma CollapseNothing(s: string)
    requires forall k :: 0 <= k < |s| ==> !IsWhite(s[k])
    ensures Collapse(s) == s
  {
    hide Squeeze, RunLen, IsWhite;
    RunLenIs(White, s, 0);
    SqueezeSolid(s, "");
    SqueezeStep("");
    assert s[0..] == s && s + "" == s;
  }

  /** Pass 3 can uncover a userinfo that pass 2 could not see: the value it replaces held the
      `/` that ended the userinfo. The test of idempotence does not extend to all text. */
  lemma AssignmentInUrlNotIdempotent()
    ensures Redact(HIDDEN_URL) == UNCOVERED_URL
    ensures Redact(Redact(HIDDEN_URL)) != Redact(HIDDEN_URL)
  {
    hide Replace, AllMasked, Find, Redact, LeavesNo;
    HiddenUrlRedacted();
    UncoveredHit();
    UserinfoLeftIff(HIDDEN_URL);
    RedactIdempotentIff(HIDDEN_URL);
  }

  lemma HiddenUrlNoBearer()
    ensures Replace(Bearer, HIDDEN_URL) == HIDDEN_URL
  {
    hide Replace;
    UntouchedAll(Bearer, HIDDEN_URL);
  }

  lemma UncoveredNoKey()
    ensures Replace(KeyValue, UNCOVERED_URL) == UNCOVERED_URL
  {
    hide Replace;
    UntouchedAll(KeyValue, UNCOVERED_URL);
  }

  lemma UncoveredSolid()
    ensures Collapse(UNCOVERED_URL) == UNCOVERED_URL
  {
    hide Collapse;
    CollapseNothing(UNCOVERED_URL);
  }

  lemma HiddenUrlRedacted()
    ensures Redact(HIDDEN_URL) == UNCOVERED_URL
  {
    hide Replace, Collapse;
    HiddenUrlNoBearer();
    HiddenUrl();
    UncoverUrl();
    UncoveredNoKey();
    UncoveredSolid();
  }

  lemma UncoveredHit()
    ensures !AllMasked(UrlUserinfo, UNCOVERED_URL)
  {
    hide Find;
    UserinfoAfter(NAME + "=" + PLACEHOLDER + ",@", 25, UNCOVERED_URL);
    assert Masked(UrlUserinfo, UNCOVERED_URL, Hit(4, 30))[4] == '[';
    assert UNCOVERED_URL[..30][4] == 'F';
  }

  // ---- whitespace the passes do not know ----

  const WIDE_BEARER := "Bearer\U{A0}t"

  lemma WideBearerUnmasked()
    ensures MaskAll(WIDE_BEARER) == WIDE_BEARER
  {
    hide Replace, Find;
    var x := WIDE_BEARER;
    BearerNoHit(x);
    ReplaceStep(Bearer, x);
    UntouchedAll(Bearer, x[1..]);
    assert [x[0]] + x[1..] == x;
    NoSeparatorNoReplace(x);
    UntouchedAll(Assignment, x);
    UntouchedAll(KeyValue, x);
  }

  lemma BearerNoHit(s: string)
    requires 6 < |s| && !IsSpace(s[6])
    ensures Find(Bearer, s).None?
  {
    hide RunLen, IsSpace;
    RunLenIs(Space, s[6..], 0);
  }

  lemma WideBearerCollapse()
    ensures Collapse(WIDE_BEARER) == "Bearer t"
  {
    hide Squeeze, RunLen;
    var x := WIDE_BEARER;
    RunLenIs(White, x, 0);
    assert x[0..] == x == "Bearer" + x[6..];
    SqueezeSolid("Bearer", x[6..]);
    RunLenIs(White, x[6..], 1);
    SqueezeStep(x[6..]);
    assert x[6..][1..] == "t" + "";
    SqueezeSolid("t", "");
    SqueezeStep("");
  }

  /** A no-break space hides a bearer token from pass 1 and is then collapsed to a space. */
  lemma WideSpaceKeepsBearer()
    ensures Redact(WIDE_BEARER) == "Bearer t"
    ensures Find(Bearer, Redact(WIDE_BEARER)).Some?
  {
    hide Replace, Collapse, RunLen;
    WideBearerUnmasked();
    WideBearerCollapse();
    var y := "Bearer t";
    assert y[..6] == "Bearer" && y[7..] == "t";
    RunLenIs(Space, y[6..], 1);
    RunLenIs(TokenChar, y[7..], 1);
  }
}
