/** Whole families of inputs that leave something behind, one for each kind. */
module RedactionFamilies {
  import opened Optional
  import opened Redaction
  import opened RedactionMasks
  import opened RedactionTwice
  import opened RedactionFusion
  import opened RedactionReading
  import opened RedactionSpaces
  import opened RedactionLeftovers
  import opened RedactionWideValues
  import opened RedactionHiddenUrls
  import opened RedactionLimits

  /** Whitespace, some of it not ASCII. */
  predicate WideGap(gap: string) {
    && (forall k :: 0 <= k < |gap| ==> IsWhite(gap[k]))
    && exists k :: 0 <= k < |gap| && !IsSpace(gap[k])
  }

  lemma LeftAtStart(lo: Leftover, x: string)
    requires x != "" && Quiet(x) && Here(lo, x)
    ensures !LeavesNo(lo, x)
  {
    hide CoverAt, Find, Here, Left;
    LeftStep(lo, x, 0);
  }

  lemma NeverFinal(lo: Leftover, x: string)
    requires !LeavesNo(lo, x)
    ensures Redact(Redact(x)) != Redact(x)
  {
    hide LeavesNo, Redact;
    RedactIdempotentIff(x);
  }

  /** The ASCII part of a wide gap ends before a whitespace character that is not ASCII. */
  lemma WideGapRuns(gap: string, t: string)
    requires WideGap(gap) && t != "" && !IsWhite(t[0])
    ensures RunLen(White, gap + t) == |gap|
    ensures var r := RunLen(Space, gap + t); r < |gap| && !IsSpace(gap[r]) && IsWhite(gap[r])
  {
    hide RunLen, IsWhite, IsSpace;
    var z := gap + t;
    forall k | 0 <= k < |gap| ensures In(White, z[k]) { assert z[k] == gap[k]; }
    assert z[|gap|] == t[0];
    RunLenIs(White, z, |gap|);
    var j :| 0 <= j < |gap| && !IsSpace(gap[j]);
    assert z[j] == gap[j];
    RunStops(Space, z, j);
    assert z[RunLen(Space, z)] == gap[RunLen(Space, z)];
  }

  // ---- bearer tokens ----

  lemma WideBearerQuiet(gap: string, t: string)
    requires WideGap(gap) && t != "" && !IsWhite(t[0])
    ensures Quiet("Bearer" + (gap + t))
  {
    hide Find, Assigned, RunLen, IsWhite, IsSpace, WideGap;
    var x := "Bearer" + (gap + t);
    assert x[6..] == gap + t && x[..6] == "Bearer";
    WideGapRuns(gap, t);
    var r := RunLen(Space, gap + t);
    assert x[6 + r..] == (gap + t)[r..] && (gap + t)[r] == gap[r];
    WhiteNoToken(gap[r]);
    NoBearerAcross(x, r);
    if Assigned(x).Some? { AssignedStart(x); }
    WhiteAfterWord(x);
    NoHitAt(KeyValue, x, 0);
    assert x[0..] == x;
  }

  lemma WhiteNoToken(c: char)
    requires IsWhite(c)
    ensures !In(TokenChar, c) && !In(SchemeChar, c) && !In(Marker, c) && c != ':'
  {
  }

  lemma NoBearerAcross(x: string, r: nat)
    requires 6 <= |x| && RunLen(Space, x[6..]) == r && 6 + r < |x| && !In(TokenChar, x[6 + r])
    ensures Find(Bearer, x).None?
  {
    hide RunLen, In;
    assert x[6 + r..][0] == x[6 + r];
    RunAtLeastOne(TokenChar, x[6 + r..]);
  }

  lemma WhiteAfterWord(x: string)
    requires |x| > 6 && x[..6] == "Bearer" && IsWhite(x[6])
    ensures Find(UrlUserinfo, x).None?
  {
    hide RunLen;
    WhiteNoToken(x[6]);
    BearerLetters();
    forall j | 0 <= j < 6 ensures In(SchemeChar, x[j]) { assert x[j] == x[..6][j]; }
    RunLenIs(SchemeChar, x, 6);
    NoUrlAfterRun(x, 6);
  }

  /** Behind a gap that is not all ASCII a bearer token survives redaction. */
  lemma WideTokenSurvives(gap: string, t: string)
    requires WideGap(gap) && t != "" && In(TokenChar, t[0]) && Find(KeyValue, t).None?
    ensures !NoHit(Bearer, Redact("Bearer" + (gap + t)))
    ensures var x := "Bearer" + (gap + t); Redact(Redact(x)) != Redact(x)
  {
    hide Find, CoverAt, RunLen, In, IsWhite, IsSpace, WideGap, Redact, LeavesNo, Quiet, NoHit;
    var x := "Bearer" + (gap + t);
    TokenNoWhite(t[0]);
    WideBearerQuiet(gap, t);
    WideGapRuns(gap, t);
    assert x[6..] == gap + t && x[..6] == "Bearer";
    var n := 6 + |gap|;
    assert x[n] == t[0] && x[n..] == t;
    LeftAtStart(WideToken, x);
    BearerLeftIff(x);
    NeverFinal(WideToken, x);
  }

  lemma TokenNoWhite(c: char)
    requires In(TokenChar, c)
    ensures !IsWhite(c)
  {
  }

  // ---- assignments ----

  lemma WideNameQuiet(name: string, gap: string, t: string)
    requires name in ASSIGNMENT_NAMES && WideGap(gap) && t != "" && !IsWhite(t[0])
    ensures Quiet(name + (gap + t))
  {
    hide Find, Assigned, RunLen, IsWhite, IsSpace, WideGap, In;
    var x := name + (gap + t);
    NameUnderscore(name);
    assert x[|name|..] == gap + t && x[..|name|] == name;
    WideGapRuns(gap, t);
    var r := RunLen(Space, gap + t);
    assert x[|name|] == gap[0] && (gap + t)[r] == gap[r];
    WideGapWhite(gap);
    WhiteNoToken(gap[0]);
    WhiteNoToken(gap[r]);
    NoUrlInWideName(x, name);
    NoNameAcross(x, name, r);
    NoUrlInName(x, name, 0) by { NameEnd(name); }
    NoBearerInName(x, name, 0);
    assert x[0..] == x;
    NameChars(name);
    NoKeyChar(x[0]);
    NoHitAt(KeyValue, x, 0);
    NothingFound(x);
  }

  lemma WideGapWhite(gap: string)
    requires WideGap(gap)
    ensures gap != "" && IsWhite(gap[0])
  {
  }

  lemma NoUrlInWideName(x: string, name: string)
    requires name in ASSIGNMENT_NAMES && StartsWith(x, name) && |name| > 3 && |name| < |x| && IsWhite(x[|name|])
    ensures Find(UrlUserinfo, x[|name| - 3..]).None?
  {
    hide RunLen, IsWhite, StartsWith;
    WordChars(x, name);
    NameEnd(name);
    var u := x[|name| - 3..];
    WhiteNoToken(x[|name|]);
    assert u[0] == 'K' && u[1] == 'E' && u[2] == 'Y' && u[3] == x[|name|];
    RunLenIs(SchemeChar, u, 3);
    NoUrlAfterRun(u, 3);
  }

  /** A name whose whitespace runs into a character that is no marker starts no assignment. */
  lemma NoNameAcross(x: string, name: string, r: nat)
    requires name in ASSIGNMENT_NAMES && StartsWith(x, name) && |name| > 3
    requires Find(UrlUserinfo, x[|name| - 3..]).None?
    requires RunLen(Space, x[|name|..]) == r && |name| + r < |x| && !In(Marker, x[|name| + r])
    ensures Assigned(x).None?
  {
    hide Find, FirstWord, RunLen, In, ValueOf;
    FirstWordIs(x, name);
  }

  /** `name`, `gap`, a marker and a value: the spaced text shows an assignment. */
  lemma WideAssignmentShows(name: string, gap: string, mark: char, v: string)
    requires name in ASSIGNMENT_NAMES && WideGap(gap) && In(Marker, mark)
    requires v != "" && In(ValueChar, v[0]) && !IsWhite(v[0])
    ensures var x, n := name + (gap + ([mark] + v)), |name| + |gap| + 1;
            x != "" && n <= |x| && x[n..] == v && WideHead(x, n)
  {
    hide Spaced, FirstWord, NameTail, IsWhite, IsSpace, In, WideGap, StartsWith;
    var t := gap + ([mark] + v);
    var x, n := name + t, |name| + |gap| + 1;
    NameSolid(name);
    SpacedSolid(name);
    SpacedJoin(name, t);
    StartsWithIt(name, Spaced(t));
    FirstWordIs(Spaced(x), name);
    assert Spaced(x)[|name|..] == Spaced(t);
    WideGapAll(gap);
    WideTailShows(t, |gap|);
    assert x[n..] == v && x[n] == v[0] && Spaced(x)[n] == Spaced(t)[|gap| + 1];
  }

  lemma WideGapAll(gap: string)
    requires WideGap(gap)
    ensures forall k :: 0 <= k < |gap| ==> IsWhite(gap[k])
  {
  }

  lemma StartsWithIt(w: string, t: string)
    ensures StartsWith(w + t, w)
  {
    assert (w + t)[..|w|] == w;
  }

  /** Whitespace up to `g`, a marker and a value, as the spaced text shows them. */
  lemma WideTailShows(t: string, g: nat)
    requires g + 1 < |t| && (forall k :: 0 <= k < g ==> IsWhite(t[k])) && In(Marker, t[g])
    requires In(ValueChar, t[g + 1]) && !IsWhite(t[g + 1])
    ensures NameTail(Spaced(t)) == Some(g + 1)
  {
    hide Spaced, RunLen, IsWhite, IsSpace, In;
    var z := Spaced(t);
    MarkerSolid(t[g]);
    SpaceIn();
    RunLenIs(Space, z, g);
    ValueNotTail(t[g + 1]);
    NotSpaceIn(t[g + 1]);
    RunLenIs(Space, z[g + 1..], 0);
  }

  lemma MarkerSolid(c: char)
    requires In(Marker, c)
    ensures !IsWhite(c) && !In(Space, c)
  {
  }

  lemma SpaceIn()
    ensures In(Space, ' ')
  {
  }

  lemma NotSpaceIn(c: char)
    requires !IsSpace(c)
    ensures !In(Space, c)
  {
  }

  lemma WideHere(x: string, n: nat)
    requires WideHead(x, n) && n <= |x| && !ReadsPlaceholder(x[n..])
    ensures Here(WideValue, x)
  {
    hide Find, Spaced, WideHead, ReadsPlaceholder;
    WideHeadIs(x);
  }

  /** Behind a gap that is not all ASCII the value of an assignment survives redaction. */
  lemma WideValueSurvives(name: string, gap: string, mark: char, v: string)
    requires name in ASSIGNMENT_NAMES && WideGap(gap) && In(Marker, mark)
    requires v != "" && In(ValueChar, v[0]) && !IsWhite(v[0]) && !ReadsPlaceholder(v)
    ensures var x := name + (gap + ([mark] + v)); !AllMasked(Assignment, Redact(x)) && Redact(Redact(x)) != Redact(x)
  {
    hide *;
    var t := [mark] + v;
    var x := name + (gap + t);
    MarkerSolid(mark);
    WideNameQuiet(name, gap, t);
    WideAssignmentShows(name, gap, mark, v);
    WideHere(x, |name| + |gap| + 1);
    LeftAtStart(WideValue, x);
    AssignmentLeftIff(x);
    NeverFinal(WideValue, x);
  }

  // ---- URL userinfo ----

  /** A value without `:` and `B` that starts with a delimiter of userinfo. */
  predicate Delimited(v: string) {
    && v != "" && (v[0] == '/' || v[0] == '?' || v[0] == '#')
    && forall k :: 0 <= k < |v| ==> In(ValueChar, v[k]) && v[k] != ':' && v[k] != 'B'
  }

  lemma NoUrlBeforeComma(w: string, u: string)
    requires (forall k :: 0 <= k < |w| ==> w[k] != ':') && u != "" && u[0] == ','
    ensures Find(UrlUserinfo, w + u).None?
  {
    hide Find;
    var t := w + u;
    assert t[|w|] == ',';
    if Find(UrlUserinfo, t).Some? {
      HeadOfHit(t);
      SchemeShape(t, UrlHead(t).value);
    }
  }

  /** A value is read up to the comma. */
  lemma {:induction false} ValueToComma(w: string, u: string)
    requires (forall k :: 0 <= k < |w| ==> In(ValueChar, w[k]) && w[k] != ':' && w[k] != 'B') && u != "" && u[0] == ','
    ensures ValueOf(w + u) == Value(|w|, "")
  {
    hide Find, ValueOf, In;
    var t := w + u;
    ValueStep(t);
    NoUrlBeforeComma(w, u);
    CommaEnds();
    if Find(Bearer, t).Some? { HitStart(Bearer, t); }
    if w != "" {
      ValueToComma(w[1..], u);
      assert t[1..] == w[1..] + u;
    }
  }

  lemma CommaEnds()
    ensures !In(ValueChar, ',') && !CanStartHit(Bearer, ',')
  {
  }

  /** `name=value` in front of a comma is an assignment. */
  lemma AssignedToComma(name: string, v: string, u: string)
    requires name in ASSIGNMENT_NAMES && Delimited(v) && u != "" && u[0] == ','
    ensures Assigned(name + ("=" + (v + u))) == Some(Cover(|name| + 1, "", |name| + 1 + |v|))
  {
    hide Find, ValueOf, RunLen, FirstWord, NameTail;
    var x := name + ("=" + (v + u));
    NameUnderscore(name);
    assert x[..|name|] == name;
    FirstWordIs(x, name);
    var t := x[|name|..];
    assert t == "=" + (v + u) && t[1..] == v + u;
    EqualsTail(t);
    assert x[|name| + 1..] == v + u;
    ValueToComma(v, u);
    NoUrlAtEquals(x, name);
  }

  lemma EqualsTail(t: string)
    requires |t| > 1 && t[0] == '=' && (t[1] == '/' || t[1] == '?' || t[1] == '#')
    ensures NameTail(t) == Some(1)
  {
    hide RunLen;
    RunLenIs(Space, t, 0);
    RunLenIs(Space, t[1..], 0);
  }

  lemma NoUrlAtEquals(x: string, name: string)
    requires name in ASSIGNMENT_NAMES && StartsWith(x, name) && 3 < |name| < |x| && x[|name|] == '='
    ensures Find(UrlUserinfo, x[|name| - 3..]).None?
  {
    hide RunLen, StartsWith;
    WordChars(x, name);
    NameEnd(name);
    var u := x[|name| - 3..];
    assert u[0] == 'K' && u[1] == 'E' && u[2] == 'Y' && u[3] == '=';
    RunLenIs(SchemeChar, u, 3);
    NoUrlAfterRun(u, 3);
  }

  /** A scheme and `://`, then an assignment whose value starts with a delimiter, a comma and an `@`. */
  function HiddenText(scheme: string, name: string, v: string, rest: string): string {
    scheme + "://" + (name + ("=" + (v + (",@" + rest))))
  }

  predicate IsScheme(scheme: string) {
    scheme != "" && IsLetter(scheme[0]) && forall k :: 0 <= k < |scheme| ==> In(SchemeChar, scheme[k])
  }

  lemma HiddenHead(scheme: string, t: string)
    requires IsScheme(scheme)
    ensures UrlHead(scheme + "://" + t) == Some(|scheme| + 3) && (scheme + "://" + t)[|scheme| + 3..] == t
  {
    hide RunLen;
    var x := scheme + "://" + t;
    RunLenIs(SchemeChar, x, |scheme|);
    assert x[|scheme|..][..3] == "://";
  }

  lemma HiddenQuiet(x: string, n: nat, name: string, t: string)
    requires UrlHead(x) == Some(n) && x[n..] == name + ("=" + t)
    requires name in ASSIGNMENT_NAMES && t != "" && (t[0] == '/' || t[0] == '?' || t[0] == '#')
    ensures Quiet(x)
  {
    hide Find, UrlHead, Assigned, FirstWord;
    HiddenNotFound(x, n, name, t);
    NoBearerInScheme(x, n);
    NoKeyInScheme(x, n, 0, x[n..]);
    assert x[0..] == x && x[0..n] + x[n..] == x;
    assert x[..n - 0] == x[0..n];
    NoNameAt(x, n, 0, x);
    if Assigned(x).Some? { AssignedStart(x); }
    NothingFound(x);
  }

  lemma HiddenNotFound(x: string, n: nat, name: string, t: string)
    requires UrlHead(x) == Some(n) && x[n..] == name + ("=" + t)
    requires name in ASSIGNMENT_NAMES && t != "" && (t[0] == '/' || t[0] == '?' || t[0] == '#')
    ensures Find(UrlUserinfo, x).None?
  {
    hide RunLen, UrlHead;
    var u := x[n..];
    NameUnderscore(name);
    var r := |name| + 1;
    forall k | 0 <= k < r ensures In(UserinfoChar, u[k]) {
      assert u[k] == if k < |name| then name[k] else '=';
    }
    assert u[r] == t[0];
    RunLenIs(UserinfoChar, u, r);
    assert x[n + r] == u[r];
  }

  /** The userinfo that pass 2 cannot see is uncovered by pass 3, and one application is not final. */
  lemma HiddenUserinfoSurvives(scheme: string, name: string, v: string, rest: string)
    requires IsScheme(scheme) && name in ASSIGNMENT_NAMES && Delimited(v)
    ensures var x := HiddenText(scheme, name, v, rest);
            !AllMasked(UrlUserinfo, Redact(x)) && Redact(Redact(x)) != Redact(x)
  {
    hide Find, CoverAt, Redact, LeavesNo, Quiet, AllMasked, UrlHead, Delimited, IsScheme, Reaches, Assigned;
    var u := ",@" + rest;
    var t := name + ("=" + (v + u));
    var x := HiddenText(scheme, name, v, rest);
    var n := |scheme| + 3;
    HiddenHead(scheme, t);
    DelimitedFirst(v, u);
    HiddenQuiet(x, n, name, v + u);
    AssignedToComma(name, v, u);
    HiddenReaches(name, v, u);
    NameChars(name);
    assert x[n] == t[0] == 'F';
    LeftAtStart(HiddenUserinfo, x);
    UserinfoLeftIff(x);
    NeverFinal(HiddenUserinfo, x);
  }

  lemma DelimitedFirst(v: string, u: string)
    requires Delimited(v)
    ensures v + u != "" && var c := (v + u)[0]; c == '/' || c == '?' || c == '#'
  {
  }

  lemma NameEqualsSolid(name: string)
    requires name in ASSIGNMENT_NAMES
    ensures NoWhite(name + "=")
  {
    NameSolid(name);
  }

  lemma CommaReaches(u: string)
    requires |u| >= 2 && u[0] == ',' && u[1] == '@'
    ensures Reaches(u)
  {
    hide Assigned, Reaches;
    if Assigned(u).Some? { AssignedStart(u); }
    ReachesStep(u);
    if Assigned(u[1..]).Some? { AssignedStart(u[1..]); }
    ReachesStep(u[1..]);
  }

  lemma ReachesOn(t: string, c: Cover)
    requires Assigned(t) == Some(c) && NoWhite(t[..c.keep]) && c.after == "" && Reaches(t[c.end..])
    ensures Reaches(t)
  {
    hide Assigned, Reaches, NoWhite;
    ReachesStep(t);
  }

  /** A head, a value and what follows it, as one text. */
  lemma ReachesParts(head: string, v: string, u: string, t: string)
    requires t == head + (v + u) && NoWhite(head) && Reaches(u)
    requires Assigned(t) == Some(Cover(|head|, "", |head| + |v|))
    ensures Reaches(t)
  {
    hide *;
    assert t[..|head|] == head;
    assert t[|head| + |v|..] == u;
    ReachesOn(t, Cover(|head|, "", |head| + |v|));
  }

  lemma ReachesFrom(name: string, v: string, u: string, t: string)
    requires t == name + ("=" + (v + u)) && NoWhite(name + "=") && Reaches(u)
    requires Assigned(t) == Some(Cover(|name| + 1, "", |name| + 1 + |v|))
    ensures Reaches(t)
  {
    hide *;
    assert t == (name + "=") + (v + u);
    ReachesParts(name + "=", v, u, t);
  }

  lemma HiddenReaches(name: string, v: string, u: string)
    requires name in ASSIGNMENT_NAMES && |u| >= 2 && u[0] == ',' && u[1] == '@'
    requires Assigned(name + ("=" + (v + u))) == Some(Cover(|name| + 1, "", |name| + 1 + |v|))
    ensures Reaches(name + ("=" + (v + u)))
  {
    hide *;
    NameEqualsSolid(name);
    CommaReaches(u);
    ReachesFrom(name, v, u, name + ("=" + (v + u)));
  }
}
