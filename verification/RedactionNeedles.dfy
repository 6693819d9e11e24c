/** Fixed secrets the redactor must leave nowhere, and why neither masking nor
    the whitespace collapse can bring one into being. */
module RedactionNeedles {
  import opened Optional
  import opened Redaction

  datatype Needle =
    | BearerToken   // `Bearer`, `\s+`, one token character
    | WideBearer    // the same with any Unicode whitespace
    | KeyToken      // a key prefix and one key character
    | Separator     // `://`
    | Name          // an assignment name

  /** Length of the shortest text that makes the needle at the start of `s`. */
  function NeedleLen(nd: Needle, s: string): (r: Option<nat>)
    ensures r.Some? ==> 0 < r.value <= |s|
  {
    match nd
    case BearerToken =>
      (match Find(Bearer, s) case Some(h) => Some(h.keep + 1) case None => None)
    case WideBearer =>
      if !StartsWith(s, "Bearer") then None
      else
        var n := 6 + RunLen(White, s[6..]);
        if 6 < n < |s| && In(TokenChar, s[n]) then Some(n + 1) else None
    case KeyToken =>
      (match Find(KeyValue, s) case Some(h) => Some(KeyHead(s).value + 1) case None => None)
    case Separator => if StartsWith(s, "://") then Some(3) else None
    case Name =>
      match FirstWord(ASSIGNMENT_NAMES, s)
      case Some(w) => assert w != ""; Some(|w|)
      case None => None
  }

  predicate Absent(nd: Needle, s: string) {
    s == "" || (NeedleLen(nd, s).None? && Absent(nd, s[1..]))
  }

  lemma {:induction false} AbsentIsNoHit(s: string)
    ensures Absent(BearerToken, s) <==> NoHit(Bearer, s)
    ensures Absent(KeyToken, s) <==> NoHit(KeyValue, s)
  {
    hide Find;
    if s != "" {
      AbsentIsNoHit(s[1..]);
    }
  }

  // ---- needles are local and clear of placeholders ----

  lemma RunPrefix(cls: CharClass, s: string, t: string, m: nat)
    requires m <= |s| && m <= |t| && s[..m] == t[..m] && RunLen(cls, t) < m
    ensures RunLen(cls, s) == RunLen(cls, t)
  {
    hide RunLen, In;
    var n := RunLen(cls, t);
    SameAt(s, t, m, n);
    forall k | 0 <= k < n ensures In(cls, s[k]) {
      SameAt(s, t, m, k);
    }
    RunLenIs(cls, s, n);
  }

  lemma WordPrefix(s: string, t: string, w: string, m: nat)
    requires m <= |s| && m <= |t| && s[..m] == t[..m] && |w| <= m
    ensures StartsWith(s, w) <==> StartsWith(t, w)
  {
    assert s[..|w|] == s[..m][..|w|];
    assert t[..|w|] == t[..m][..|w|];
  }

  lemma TailPrefix(s: string, t: string, m: nat, k: nat)
    requires k <= m <= |s| && m <= |t| && s[..m] == t[..m]
    ensures s[k..][..m - k] == t[k..][..m - k]
  {
    assert s[k..][..m - k] == s[..m][k..];
    assert t[k..][..m - k] == t[..m][k..];
  }

  lemma SameAt(s: string, t: string, m: nat, k: nat)
    requires k < m <= |s| && m <= |t| && s[..m] == t[..m]
    ensures s[k] == t[k]
  {
    assert s[..m][k] == t[..m][k];
  }

  /** The word found first in `t` is found first in any text that agrees with `t` on it. */
  lemma FirstWordLocal(ws: seq<string>, s: string, t: string, w: string)
    requires FirstWord(ws, t) == Some(w) && PrefixFree(ws)
    requires |w| <= |s| && s[..|w|] == t[..|w|]
    ensures FirstWord(ws, s) == Some(w)
  {
    hide FirstWord;
    assert StartsWith(s, w);
    var v := FirstWord(ws, s).value;
    PrefixesCompare(s, v, w);
    var a :| 0 <= a < |ws| && ws[a] == v;
    var b :| 0 <= b < |ws| && ws[b] == w;
    assert a < b || b < a || a == b;
  }

  lemma BearerLocal(s: string, t: string, m: nat)
    requires NeedleLen(BearerToken, t) == Some(m) && m <= |s| && s[..m] == t[..m]
    ensures NeedleLen(BearerToken, s) == Some(m)
  {
    hide RunLen, In, StartsWith;
    WordPrefix(s, t, "Bearer", m);
    TailPrefix(s, t, m, 6);
    RunPrefix(Space, s[6..], t[6..], m - 6);
    SameAt(s, t, m, m - 1);
    assert s[m - 1..][0] == s[m - 1] && t[m - 1..][0] == t[m - 1];
  }

  lemma WideLocal(s: string, t: string, m: nat)
    requires NeedleLen(WideBearer, t) == Some(m) && m <= |s| && s[..m] == t[..m]
    ensures NeedleLen(WideBearer, s) == Some(m)
  {
    hide RunLen, In, StartsWith;
    WordPrefix(s, t, "Bearer", m);
    TailPrefix(s, t, m, 6);
    RunPrefix(White, s[6..], t[6..], m - 6);
    SameAt(s, t, m, m - 1);
  }

  lemma KeyLocal(s: string, t: string, m: nat)
    requires NeedleLen(KeyToken, t) == Some(m) && m <= |s| && s[..m] == t[..m]
    ensures NeedleLen(KeyToken, s) == Some(m)
  {
    hide RunLen, In, FirstWord;
    PrefixesPrefixFree();
    TakePrefix(s, t, m, m - 1);
    FirstWordLocal(VALUE_PREFIXES, s, t, FirstWord(VALUE_PREFIXES, t).value);
    SameAt(s, t, m, m - 1);
    assert s[m - 1..][0] == s[m - 1] && t[m - 1..][0] == t[m - 1];
  }

  lemma TakePrefix(s: string, t: string, m: nat, k: nat)
    requires k <= m <= |s| && m <= |t| && s[..m] == t[..m]
    ensures s[..k] == t[..k]
  {
    assert s[..k] == s[..m][..k];
    assert t[..k] == t[..m][..k];
  }

  /** A needle depends on its own characters only. */
  lemma NeedleLocal(nd: Needle, s: string, t: string, m: nat)
    requires NeedleLen(nd, t) == Some(m) && m <= |s| && s[..m] == t[..m]
    ensures NeedleLen(nd, s) == Some(m)
  {
    hide RunLen, In, FirstWord;
    match nd
    case BearerToken => BearerLocal(s, t, m);
    case WideBearer => WideLocal(s, t, m);
    case KeyToken => KeyLocal(s, t, m);
    case Separator => WordPrefix(s, t, "://", m);
    case Name =>
      NamesPrefixFree();
      FirstWordLocal(ASSIGNMENT_NAMES, s, t, FirstWord(ASSIGNMENT_NAMES, t).value);
  }

  predicate CanStart(nd: Needle, c: char) {
    match nd
    case BearerToken => c == 'B'
    case WideBearer => c == 'B'
    case KeyToken => c == 'p' || c == 'f' || c == 'c'
    case Separator => c == ':'
    case Name => c == 'F'
  }

  lemma NeedleStart(nd: Needle, t: string)
    requires NeedleLen(nd, t).Some?
    ensures CanStart(nd, t[0])
  {
    hide RunLen, FirstWord;
    match nd
    case BearerToken => assert t[0] == t[..6][0];
    case WideBearer => assert t[0] == t[..6][0];
    case KeyToken =>
      var w := FirstWord(VALUE_PREFIXES, t).value;
      PrefixChars(w);
      assert t[..|w|][0] == w[0];
    case Separator => assert t[0] == t[..3][0];
    case Name =>
      var w := FirstWord(ASSIGNMENT_NAMES, t).value;
      NameChars(w);
      assert t[..|w|][0] == w[0];
  }

  /** A needle starts outside every placeholder and contains no `[`. */
  lemma NeedleClear(nd: Needle, t: string, m: nat)
    requires NeedleLen(nd, t) == Some(m)
    ensures t[0] !in PLACEHOLDER && '[' !in t[..m]
  {
    hide RunLen, FirstWord;
    NeedleStart(nd, t);
    match nd
    case BearerToken => BearerClear(t, Space, m);
    case WideBearer => BearerClear(t, White, m);
    case KeyToken => KeyTokenChars(t, m);
    case Separator =>
    case Name => NameClear(t, m);
  }

  lemma BearerClear(t: string, cls: CharClass, m: nat)
    requires cls == Space || cls == White
    requires StartsWith(t, "Bearer") && m == 6 + RunLen(cls, t[6..]) + 1 <= |t| && In(TokenChar, t[m - 1])
    ensures '[' !in t[..m]
  {
    hide RunLen;
    assert t[..6] == "Bearer";
    forall k | 0 <= k < m ensures t[k] != '[' {
      if k < 6 {
        assert t[k] == "Bearer"[k];
      } else if k < m - 1 {
        assert In(cls, t[6..][k - 6]);
      }
    }
  }

  lemma KeyTokenChars(t: string, m: nat)
    requires NeedleLen(KeyToken, t) == Some(m)
    ensures '[' !in t[..m] && ' ' !in t[..m]
  {
    hide RunLen, FirstWord;
    var w := FirstWord(VALUE_PREFIXES, t).value;
    PrefixChars(w);
    forall k | 0 <= k < m ensures t[k] != '[' && t[k] != ' ' {
      if k < |w| {
        assert t[..|w|][k] == w[k];
      } else {
        assert t[m - 1..][0] == t[m - 1];
      }
    }
  }

  lemma NameClear(t: string, m: nat)
    requires NeedleLen(Name, t) == Some(m)
    ensures '[' !in t[..m] && ' ' !in t[..m]
  {
    hide FirstWord;
    NameChars(FirstWord(ASSIGNMENT_NAMES, t).value);
  }

  // ---- masking ----

  /** One step of a rewriting: copy a character, or put the placeholder for the next `n`. */
  datatype Step = Keep | Mask(n: nat)

  function Apply(steps: seq<Step>, s: string): string {
    if s == "" || steps == [] then s
    else
      match steps[0]
      case Keep => [s[0]] + Apply(steps[1..], s[1..])
      case Mask(n) => PLACEHOLDER + Apply(steps[1..], s[if n <= |s| then n else |s|..])
  }

  function Keeps(n: nat): seq<Step> { seq(n, _ => Keep) }

  lemma {:induction false} ApplyKeeps(n: nat, steps: seq<Step>, s: string)
    requires n <= |s|
    ensures Apply(Keeps(n) + steps, s) == s[..n] + Apply(steps, s[n..])
  {
    hide Apply, Keeps;
    if n == 0 {
      NoKeeps(steps);
      assert s[0..] == s && s[..0] == "" && "" + Apply(steps, s) == Apply(steps, s);
    } else {
      KeepStep(n, steps, s);
      ApplyKeeps(n - 1, steps, s[1..]);
      assert s[1..][n - 1..] == s[n..];
      assert s[..n] == [s[0]] + s[1..][..n - 1];
      assert [s[0]] + (s[1..][..n - 1] + Apply(steps, s[n..])) == [s[0]] + s[1..][..n - 1] + Apply(steps, s[n..]);
    }
  }

  lemma NoKeeps(steps: seq<Step>)
    ensures Keeps(0) + steps == steps
  {
  }

  lemma KeepStep(n: nat, steps: seq<Step>, s: string)
    requires 0 < n && s != ""
    ensures Apply(Keeps(n) + steps, s) == [s[0]] + Apply(Keeps(n - 1) + steps, s[1..])
  {
    assert (Keeps(n) + steps)[1..] == Keeps(n - 1) + steps;
  }

  /** Every pass copies or masks, nothing else. */
  lemma {:induction false} PassSteps(p: Pass, s: string) returns (steps: seq<Step>)
    ensures Apply(steps, s) == Replace(p, s)
  {
    hide Find, Masked;
    ReplaceStep(p, s);
    if s == "" {
      steps := [];
    } else if Find(p, s).None? {
      steps := PassSteps(p, s[1..]);
      steps := [Keep] + steps;
    } else {
      var h := Find(p, s).value;
      var rest := PassSteps(p, s[h.end..]);
      steps := HitSteps(p, s, h, rest);
    }
  }

  lemma HitSteps(p: Pass, s: string, h: Hit, rest: seq<Step>) returns (steps: seq<Step>)
    requires Find(p, s) == Some(h)
    ensures Apply(steps, s) == Masked(p, s, h) + Apply(rest, s[h.end..])
  {
    hide Apply, Find, Masked, Keeps;
    var tail := if p == UrlUserinfo then 1 else 0;
    var after := Keeps(tail) + rest;
    var at := h.end - tail;
    var n := at - h.keep;
    UrlHit(p, s, h);
    steps := Keeps(h.keep) + ([Mask(n)] + after);
    ApplyKeeps(h.keep, [Mask(n)] + after, s);
    var t := s[h.keep..];
    ApplyMask(n, after, t);
    assert t[n..] == s[at..];
    ApplyKeeps(tail, rest, s[at..]);
    assert s[at..][tail..] == s[h.end..];
    assert s[at..][..tail] == if p == UrlUserinfo then "@" else "";
    MaskedParts(p, s, h, Apply(rest, s[h.end..]));
  }

  lemma MaskedParts(p: Pass, s: string, h: Hit, rest: string)
    requires h.keep <= |s|
    ensures Masked(p, s, h) + rest == s[..h.keep] + (PLACEHOLDER + ((if p == UrlUserinfo then "@" else "") + rest))
  {
  }

  lemma ApplyMask(n: nat, rest: seq<Step>, t: string)
    requires n <= |t| && t != ""
    ensures Apply([Mask(n)] + rest, t) == PLACEHOLDER + Apply(rest, t[n..])
  {
    assert ([Mask(n)] + rest)[1..] == rest;
  }

  lemma UrlHit(p: Pass, s: string, h: Hit)
    requires Find(p, s) == Some(h)
    ensures p == UrlUserinfo ==> h.keep < h.end - 1 && s[h.end - 1] == '@'
  {
  }

  lemma FirstIn(t: string, n: nat)
    requires 0 < n <= |t|
    ensures t[0] in t[..n]
  {
    assert t[..n][0] == t[0];
  }

  /** Until its first `[`, a rewriting reads like the text it came from. */
  lemma {:induction false} ApplyLead(steps: seq<Step>, s: string, n: nat)
    requires n <= |Apply(steps, s)| && '[' !in Apply(steps, s)[..n]
    ensures n <= |s| && s[..n] == Apply(steps, s)[..n]
  {
    if n > 0 && s != "" && steps != [] {
      var out := Apply(steps, s);
      FirstIn(out, n);
      if steps[0].Keep? {
        var out' := Apply(steps[1..], s[1..]);
        assert out'[..n - 1] == out[..n][1..];
        ApplyLead(steps[1..], s[1..], n - 1);
        assert s[..n] == [s[0]] + s[1..][..n - 1];
      }
    }
  }

  lemma {:induction false} AbsentDrop(nd: Needle, s: string, n: nat)
    requires Absent(nd, s) && n <= |s|
    ensures Absent(nd, s[n..])
  {
    if n > 0 {
      AbsentDrop(nd, s[1..], n - 1);
      assert s[1..][n - 1..] == s[n..];
    } else {
      assert s[0..] == s;
    }
  }

  /** No needle starts inside `w`. */
  lemma {:induction false} AbsentBehind(nd: Needle, w: string, t: string)
    requires Absent(nd, t) && forall k :: 0 <= k < |w| ==> !CanStart(nd, w[k])
    ensures Absent(nd, w + t)
  {
    hide NeedleLen;
    if w == "" {
      assert w + t == t;
    } else {
      AbsentBehind(nd, w[1..], t);
      assert (w + t)[1..] == w[1..] + t;
      if NeedleLen(nd, w + t).Some? {
        NeedleStart(nd, w + t);
      }
    }
  }

  /** Masking brings no needle into being. */
  lemma {:induction false} MaskingAddsNoNeedle(nd: Needle, steps: seq<Step>, s: string)
    requires Absent(nd, s)
    ensures Absent(nd, Apply(steps, s))
  {
    hide NeedleLen;
    if s != "" && steps != [] {
      match steps[0]
      case Keep =>
        MaskingAddsNoNeedle(nd, steps[1..], s[1..]);
        var out := Apply(steps, s);
        assert out[1..] == Apply(steps[1..], s[1..]);
        if NeedleLen(nd, out).Some? {
          var m := NeedleLen(nd, out).value;
          NeedleClear(nd, out, m);
          ApplyLead(steps, s, m);
          NeedleLocal(nd, s, out, m);
        }
      case Mask(n) =>
        var k := if n <= |s| then n else |s|;
        AbsentDrop(nd, s, k);
        MaskingAddsNoNeedle(nd, steps[1..], s[k..]);
        AbsentBehind(nd, PLACEHOLDER, Apply(steps[1..], s[k..]));
    }
  }

  lemma PassAddsNoNeedle(nd: Needle, p: Pass, s: string)
    requires Absent(nd, s)
    ensures Absent(nd, Replace(p, s))
  {
    var steps := PassSteps(p, s);
    MaskingAddsNoNeedle(nd, steps, s);
  }

  lemma PassLead(p: Pass, s: string, n: nat)
    requires n <= |Replace(p, s)| && '[' !in Replace(p, s)[..n]
    ensures n <= |s| && s[..n] == Replace(p, s)[..n]
  {
    var steps := PassSteps(p, s);
    ApplyLead(steps, s, n);
  }

  // ---- collapsing whitespace ----

  /** Until its first space, collapsed text reads like the text it came from. */
  lemma {:induction false} SqueezeLead(s: string, n: nat)
    requires n <= |Squeeze(s)| && ' ' !in Squeeze(s)[..n]
    ensures n <= |s| && s[..n] == Squeeze(s)[..n]
  {
    if n > 0 && s != "" {
      var out := Squeeze(s);
      FirstIn(out, n);
      if !IsWhite(s[0]) {
        assert out[1..] == Squeeze(s[1..]);
        assert out[1..][..n - 1] == out[..n][1..];
        SqueezeLead(s[1..], n - 1);
        assert s[..n] == [s[0]] + s[1..][..n - 1];
      }
    }
  }

  lemma NeedleSolid(nd: Needle, t: string, m: nat)
    requires NeedleLen(nd, t) == Some(m) && nd != BearerToken && nd != WideBearer
    ensures ' ' !in t[..m]
  {
    hide RunLen, FirstWord, Find;
    match nd
    case KeyToken => KeyTokenChars(t, m);
    case Separator =>
    case Name => NameClear(t, m);
  }

  /** Collapsing brings no needle without whitespace into being. */
  lemma {:induction false} SqueezeAddsNoNeedle(nd: Needle, s: string)
    requires Absent(nd, s) && nd != BearerToken && nd != WideBearer
    ensures Absent(nd, Squeeze(s))
  {
    hide NeedleLen, RunLen;
    var out := Squeeze(s);
    if s != "" {
      if IsWhite(s[0]) {
        var n := RunLen(White, s);
        AbsentDrop(nd, s, n);
        if out != "" {
          SqueezeAddsNoNeedle(nd, s[n..]);
          assert out[1..] == Squeeze(s[n..]);
          if NeedleLen(nd, out).Some? {
            NeedleStart(nd, out);
          }
        }
      } else {
        SqueezeAddsNoNeedle(nd, s[1..]);
        assert out[1..] == Squeeze(s[1..]);
        if NeedleLen(nd, out).Some? {
          var m := NeedleLen(nd, out).value;
          NeedleSolid(nd, out, m);
          SqueezeLead(s, m);
          NeedleLocal(nd, s, out, m);
        }
      }
    }
  }
}
