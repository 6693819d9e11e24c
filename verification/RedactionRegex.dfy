/** The regular expressions the source states above its scanner, with the
    ordered (greedy, backtracking) matching of a regex engine, and the proof
    that every pass is leftmost replace-all of its expression. */
module RedactionRegex {
  import opened Optional
  import opened Redaction

  datatype Regex =
    | Word(w: string)
    | AnyOf(ws: seq<string>)
    | One(cls: CharClass)
    | Many(cls: CharClass)          // greedy `*`
    | Maybe(cls: CharClass)         // greedy `?`
    | Then(first: Regex, second: Regex)

  function Plus(cls: CharClass): Regex { Then(One(cls), Many(cls)) }

  function WordEnds(ws: seq<string>, s: string, i: nat): (r: seq<nat>)
    requires i <= |s|
    ensures forall j :: 0 <= j < |r| ==> i <= r[j] <= |s|
  {
    if ws == [] then []
    else (if StartsWith(s[i..], ws[0]) then [i + |ws[0]|] else []) + WordEnds(ws[1..], s, i)
  }

  /** The ends of all matches of `re` starting at `i`, in the order a backtracking engine tries them. */
  function Ends(re: Regex, s: string, i: nat): (r: seq<nat>)
    requires i <= |s|
    ensures forall j :: 0 <= j < |r| ==> i <= r[j] <= |s|
    decreases re, 0, |s| - i
  {
    match re
    case Word(w) => if StartsWith(s[i..], w) then [i + |w|] else []
    case AnyOf(ws) => WordEnds(ws, s, i)
    case One(cls) => if i < |s| && In(cls, s[i]) then [i + 1] else []
    case Many(cls) => if i < |s| && In(cls, s[i]) then Ends(re, s, i + 1) + [i] else [i]
    case Maybe(cls) => if i < |s| && In(cls, s[i]) then [i + 1, i] else [i]
    case Then(a, b) => Chain(Ends(a, s, i), b, s, i)
  }

  function Chain(starts: seq<nat>, re: Regex, s: string, low: nat): (r: seq<nat>)
    requires low <= |s|
    requires forall j :: 0 <= j < |starts| ==> low <= starts[j] <= |s|
    ensures forall j :: 0 <= j < |r| ==> low <= r[j] <= |s|
    decreases re, 1, |starts|
  {
    if starts == [] then [] else Ends(re, s, starts[0]) + Chain(starts[1..], re, s, low)
  }

  /** `(head)secret`, with `$1` kept in the replacement or not, and a literal tail after the placeholder. */
  datatype Rule = Rule(head: Regex, secret: Regex, keepHead: bool, tail: string)

  function RuleOf(p: Pass): Rule {
    match p
    case Bearer =>
      Rule(Then(Word("Bearer"), Plus(Space)), Plus(TokenChar), true, "")
    case UrlUserinfo =>
      Rule(Then(One(Letter), Then(Many(SchemeChar), Word("://"))), Then(Plus(UserinfoChar), Word("@")), true, "@")
    case Assignment =>
      Rule(Then(AnyOf(ASSIGNMENT_NAMES), Then(Many(Space), Then(One(Marker), Then(Many(Space), Maybe(Quote))))),
           Plus(ValueChar), true, "")
    case KeyValue =>
      Rule(AnyOf(VALUE_PREFIXES), Plus(KeyChar), false, "")
  }

  /** The engine's first match: the first head end from which the secret matches, and its first end. */
  function FirstSplit(heads: seq<nat>, secret: Regex, s: string): (r: Option<(nat, nat)>)
    requires forall j :: 0 <= j < |heads| ==> heads[j] <= |s|
    ensures r.Some? ==> r.value.0 <= r.value.1 <= |s| && exists j :: 0 <= j < |heads| && heads[j] == r.value.0
  {
    if heads == [] then None
    else
      var ends := Ends(secret, s, heads[0]);
      if ends != [] then Some((heads[0], ends[0])) else FirstSplit(heads[1..], secret, s)
  }

  /** Leftmost, non-overlapping replace-all, as a regex engine runs it. */
  function ReplaceAll(r: Rule, s: string, i: nat): string
    requires i <= |s|
    decreases |s| - i
  {
    if i == |s| then ""
    else
      match FirstSplit(Ends(r.head, s, i), r.secret, s)
      case Some((k, e)) =>
        if e > i then s[i..if r.keepHead then k else i] + PLACEHOLDER + r.tail + ReplaceAll(r, s, e)
        else [s[i]] + ReplaceAll(r, s, i + 1)
      case None => [s[i]] + ReplaceAll(r, s, i + 1)
  }

  // ---- determinism of the expressions ----

  /** A greedy run can stop anywhere inside it, longest first. */
  lemma {:induction false} ManyEnds(cls: CharClass, s: string, i: nat)
    requires i <= |s|
    ensures var n := RunLen(cls, s[i..]); var r := Ends(Many(cls), s, i);
            && |r| == n + 1 && r[0] == i + n
            && forall j :: 0 <= j <= n ==> r[j] == i + n - j
    decreases |s| - i
  {
    if i < |s| && In(cls, s[i]) {
      ManyEnds(cls, s, i + 1);
      assert s[i..][1..] == s[i + 1..];
    }
  }

  /** When only the first start leads anywhere, backtracking adds nothing. */
  lemma {:induction false} ChainFirst(starts: seq<nat>, re: Regex, s: string, low: nat)
    requires low <= |s|
    requires forall j :: 0 <= j < |starts| ==> low <= starts[j] <= |s|
    requires forall j :: 1 <= j < |starts| ==> Ends(re, s, starts[j]) == []
    ensures Chain(starts, re, s, low) == if starts == [] then [] else Ends(re, s, starts[0])
  {
    if starts != [] {
      ChainEmpty(starts[1..], re, s, low);
    }
  }

  lemma {:induction false} ChainEmpty(starts: seq<nat>, re: Regex, s: string, low: nat)
    requires low <= |s|
    requires forall j :: 0 <= j < |starts| ==> low <= starts[j] <= |s|
    requires forall j :: 0 <= j < |starts| ==> Ends(re, s, starts[j]) == []
    ensures Chain(starts, re, s, low) == []
  {
    if starts != [] {
      ChainEmpty(starts[1..], re, s, low);
    }
  }

  lemma ThenFirst(a: Regex, b: Regex, s: string, i: nat)
    requires i <= |s|
    requires forall j :: 1 <= j < |Ends(a, s, i)| ==> Ends(b, s, Ends(a, s, i)[j]) == []
    ensures Ends(Then(a, b), s, i) == if Ends(a, s, i) == [] then [] else Ends(b, s, Ends(a, s, i)[0])
  {
    ChainFirst(Ends(a, s, i), b, s, i);
  }

  lemma {:induction false} SplitFirst(heads: seq<nat>, secret: Regex, s: string)
    requires forall j :: 0 <= j < |heads| ==> heads[j] <= |s|
    requires forall j :: 1 <= j < |heads| ==> Ends(secret, s, heads[j]) == []
    ensures FirstSplit(heads, secret, s) ==
            if heads == [] || Ends(secret, s, heads[0]) == [] then None
            else Some((heads[0], Ends(secret, s, heads[0])[0]))
  {
    if heads != [] {
      SplitEmpty(heads[1..], secret, s);
    }
  }

  lemma {:induction false} SplitEmpty(heads: seq<nat>, secret: Regex, s: string)
    requires forall j :: 0 <= j < |heads| ==> heads[j] <= |s|
    requires forall j :: 0 <= j < |heads| ==> Ends(secret, s, heads[j]) == []
    ensures FirstSplit(heads, secret, s) == None
  {
    if heads != [] {
      SplitEmpty(heads[1..], secret, s);
    }
  }

  lemma PlusEnds(cls: CharClass, s: string, i: nat)
    requires i <= |s|
    ensures var n := RunLen(cls, s[i..]); var r := Ends(Plus(cls), s, i);
            && |r| == n && (n > 0 ==> r[0] == i + n)
            && forall j :: 0 <= j < n ==> r[j] == i + n - j
  {
    if i < |s| && In(cls, s[i]) {
      ManyEnds(cls, s, i + 1);
      assert s[i..][1..] == s[i + 1..];
      var starts: seq<nat> := [i + 1];
      assert Chain(starts, Many(cls), s, i) == Ends(Many(cls), s, i + 1) + Chain(starts[1..], Many(cls), s, i);
    }
  }

  lemma {:induction false} NoOtherWord(w: string, ws: seq<string>, s: string, i: nat)
    requires i <= |s| && StartsWith(s[i..], w)
    requires forall b :: 0 <= b < |ws| ==> !StartsWith(ws[b], w) && !StartsWith(w, ws[b])
    ensures WordEnds(ws, s, i) == []
  {
    hide StartsWith;
    if ws != [] {
      if StartsWith(s[i..], ws[0]) {
        PrefixesCompare(s[i..], w, ws[0]);
      }
      NoOtherWord(w, ws[1..], s, i);
    }
  }

  lemma {:induction false} WordEndsFirst(ws: seq<string>, s: string, i: nat)
    requires i <= |s| && PrefixFree(ws)
    ensures WordEnds(ws, s, i) ==
            match FirstWord(ws, s[i..]) case Some(w) => [i + |w|] case None => []
  {
    hide StartsWith, PrefixFree, WordEnds, FirstWord;
    WordEndsStep(ws, s, i);
    FirstWordStep(ws, s[i..]);
    if ws != [] {
      RestPrefixFree(ws);
      if StartsWith(s[i..], ws[0]) {
        NoOtherWord(ws[0], ws[1..], s, i);
      } else {
        WordEndsFirst(ws[1..], s, i);
      }
    }
  }

  lemma WordEndsStep(ws: seq<string>, s: string, i: nat)
    requires i <= |s|
    ensures ws == [] ==> WordEnds(ws, s, i) == []
    ensures ws != [] && StartsWith(s[i..], ws[0]) ==> WordEnds(ws, s, i) == [i + |ws[0]|] + WordEnds(ws[1..], s, i)
    ensures ws != [] && !StartsWith(s[i..], ws[0]) ==> WordEnds(ws, s, i) == WordEnds(ws[1..], s, i)
  {
    hide StartsWith;
  }

  lemma FirstWordStep(ws: seq<string>, s: string)
    ensures FirstWord(ws, s) ==
            if ws == [] then None else if StartsWith(s, ws[0]) then Some(ws[0]) else FirstWord(ws[1..], s)
  {
    hide StartsWith;
  }

  lemma RestPrefixFree(ws: seq<string>)
    requires PrefixFree(ws) && ws != []
    ensures PrefixFree(ws[1..])
    ensures forall b :: 0 <= b < |ws[1..]| ==> !StartsWith(ws[1..][b], ws[0]) && !StartsWith(ws[0], ws[1..][b])
  {
    hide StartsWith;
  }

  // ---- the head and the secret of each expression ----

  /** Position `k` of `s` does not start the secret of pass `p`. */
  predicate Blocked(p: Pass, s: string, k: nat) {
    k < |s| && !In(SecretClass(p), s[k])
  }

  ghost predicate HeadsAgree(p: Pass, s: string, i: nat, heads: seq<nat>, h: Option<nat>) {
    match h
    case None => heads == []
    case Some(n) =>
      heads != [] && heads[0] == i + n && forall j :: 1 <= j < |heads| ==> Blocked(p, s, heads[j])
  }

  lemma RunMember(cls: CharClass, s: string, i: nat, k: nat)
    requires i <= k <= |s| && k < i + RunLen(cls, s[i..])
    ensures k < |s| && In(cls, s[k])
  {
    hide RunLen;
    assert In(cls, s[i..][k - i]);
  }

  lemma WordEnd(w: string, s: string, i: nat)
    requires i <= |s|
    ensures Ends(Word(w), s, i) == if StartsWith(s[i..], w) then [i + |w|] else []
  {
  }

  lemma BearerHeads(s: string, i: nat)
    requires i <= |s|
    ensures HeadsAgree(Bearer, s, i, Ends(Then(Word("Bearer"), Plus(Space)), s, i), BearerHead(s[i..]))
  {
    hide Ends, RunLen, StartsWith;
    WordEnd("Bearer", s, i);
    ThenFirst(Word("Bearer"), Plus(Space), s, i);
    if StartsWith(s[i..], "Bearer") {
      StartsLong(s, i, "Bearer");
      PlusEnds(Space, s, i + 6);
      assert s[i..][6..] == s[i + 6..];
      var heads := Ends(Plus(Space), s, i + 6);
      forall j | 1 <= j < |heads| ensures Blocked(Bearer, s, heads[j]) {
        RunMember(Space, s, i + 6, heads[j]);
      }
    }
  }

  lemma StartsLong(s: string, i: nat, w: string)
    requires i <= |s| && StartsWith(s[i..], w)
    ensures i + |w| <= |s|
  {
  }

  /** A scheme run is followed by `://` at its greedy end or nowhere. */
  lemma SchemeTail(s: string, i: nat)
    requires i <= |s|
    ensures Ends(Then(Many(SchemeChar), Word("://")), s, i) ==
            var k := i + RunLen(SchemeChar, s[i..]); if StartsWith(s[k..], "://") then [k + 3] else []
  {
    hide Chain, RunLen;
    ManyEnds(SchemeChar, s, i);
    var mids := Ends(Many(SchemeChar), s, i);
    forall j | 1 <= j < |mids| ensures Ends(Word("://"), s, mids[j]) == [] {
      assert In(SchemeChar, s[i..][mids[j] - i]);
      assert s[mids[j]..][0] != "://"[0];
    }
    ThenFirst(Many(SchemeChar), Word("://"), s, i);
  }

  lemma UrlHeads(s: string, i: nat)
    requires i <= |s|
    ensures HeadsAgree(UrlUserinfo, s, i, Ends(Then(One(Letter), Then(Many(SchemeChar), Word("://"))), s, i),
                       UrlHead(s[i..]))
  {
    hide Chain, RunLen, StartsWith;
    ThenFirst(One(Letter), Then(Many(SchemeChar), Word("://")), s, i);
    if i < |s| && In(Letter, s[i]) {
      SchemeTail(s, i + 1);
      RunStep(SchemeChar, s, i);
      var n := RunLen(SchemeChar, s[i..]);
      assert s[i..][n..] == s[i + n..];
    }
  }

  lemma RunStep(cls: CharClass, s: string, i: nat)
    requires i < |s| && In(cls, s[i])
    ensures RunLen(cls, s[i..]) == 1 + RunLen(cls, s[i + 1..])
  {
    assert s[i..][1..] == s[i + 1..];
  }

  lemma KeyHeads(s: string, i: nat)
    requires i <= |s|
    ensures HeadsAgree(KeyValue, s, i, Ends(AnyOf(VALUE_PREFIXES), s, i), KeyHead(s[i..]))
  {
    hide FirstWord, WordEnds;
    PrefixesPrefixFree();
    WordEndsFirst(VALUE_PREFIXES, s, i);
  }

  const AfterMarker: Regex := Then(Many(Space), Maybe(Quote))

  /** After the marker: the greedy end first, then positions at a quote or a space. */
  lemma AfterMarkerEnds(s: string, i: nat)
    requires i <= |s|
    ensures var q := i + RunLen(Space, s[i..]);
            HeadsAgree(Assignment, s, i, Ends(AfterMarker, s, i),
                       Some(if q < |s| && In(Quote, s[q]) then q + 1 - i else q - i))
  {
    hide Ends, RunLen;
    ManyEnds(Space, s, i);
    var starts := Ends(Many(Space), s, i);
    forall j | 1 <= j < |starts| ensures starts[j] < |s| && IsSpace(s[starts[j]]) {
      RunMember(Space, s, i, starts[j]);
    }
    AtSpaces(starts[1..], s, i);
    AfterMarkerSplit(starts, s, i);
  }

  /** The quote is looked for at the greedy end of the spaces first. */
  lemma AfterMarkerSplit(starts: seq<nat>, s: string, i: nat)
    requires i <= |s| && starts == Ends(Many(Space), s, i) && starts != []
    ensures Ends(AfterMarker, s, i) ==
            (if starts[0] < |s| && In(Quote, s[starts[0]]) then [starts[0] + 1, starts[0]] else [starts[0]])
            + Chain(starts[1..], Maybe(Quote), s, i)
  {
    assert Ends(AfterMarker, s, i) == Chain(starts, Maybe(Quote), s, i);
    MaybeQuote(s, starts[0]);
    ChainStep(starts, Maybe(Quote), s, i);
  }

  lemma MaybeQuote(s: string, k: nat)
    requires k <= |s|
    ensures Ends(Maybe(Quote), s, k) == if k < |s| && In(Quote, s[k]) then [k + 1, k] else [k]
  {
  }

  lemma ChainStep(starts: seq<nat>, re: Regex, s: string, low: nat)
    requires low <= |s| && starts != []
    requires forall j :: 0 <= j < |starts| ==> low <= starts[j] <= |s|
    ensures Chain(starts, re, s, low) == Ends(re, s, starts[0]) + Chain(starts[1..], re, s, low)
  {
  }

  lemma {:induction false} AtSpaces(starts: seq<nat>, s: string, low: nat)
    requires low <= |s|
    requires forall j :: 0 <= j < |starts| ==> low <= starts[j] < |s| && IsSpace(s[starts[j]])
    ensures forall j :: 0 <= j < |Chain(starts, Maybe(Quote), s, low)| ==>
              Blocked(Assignment, s, Chain(starts, Maybe(Quote), s, low)[j])
  {
    if starts != [] {
      AtSpaces(starts[1..], s, low);
      assert Ends(Maybe(Quote), s, starts[0]) == [starts[0]];
    }
  }

  lemma AssignmentHeads(s: string, i: nat)
    requires i <= |s|
    ensures HeadsAgree(Assignment, s, i,
                       Ends(Then(AnyOf(ASSIGNMENT_NAMES), Then(Many(Space), Then(One(Marker), AfterMarker))), s, i),
                       AssignmentHead(s[i..]))
  {
    hide Ends, FirstWord, NameTail;
    NamesPrefixFree();
    var rest := Then(Many(Space), Then(One(Marker), AfterMarker));
    AfterWord(ASSIGNMENT_NAMES, rest, s, i);
    match FirstWord(ASSIGNMENT_NAMES, s[i..])
    case None =>
    case Some(name) =>
      MarkerEnds(s, i + |name|);
      assert s[i..][|name|..] == s[i + |name|..];
  }

  lemma AfterWord(ws: seq<string>, rest: Regex, s: string, i: nat)
    requires i <= |s| && PrefixFree(ws)
    ensures Ends(Then(AnyOf(ws), rest), s, i) ==
            match FirstWord(ws, s[i..]) case None => [] case Some(w) => Ends(rest, s, i + |w|)
  {
    hide FirstWord, WordEnds;
    WordEndsFirst(ws, s, i);
    ThenFirst(AnyOf(ws), rest, s, i);
  }

  /** `\s*[=:]` and what follows it: the marker stands right after the greedy run of spaces, or nowhere. */
  lemma MarkerEnds(s: string, i: nat)
    requires i <= |s|
    ensures HeadsAgree(Assignment, s, i, Ends(Then(Many(Space), Then(One(Marker), AfterMarker)), s, i), NameTail(s[i..]))
  {
    hide Ends, RunLen, HeadsAgree, NameTail, In;
    SpacesThenMarker(AfterMarker, s, i);
    TailAt(s, i);
    var k := i + RunLen(Space, s[i..]);
    if k < |s| && In(Marker, s[k]) {
      AfterMarkerEnds(s, k + 1);
      var q := k + 1 + RunLen(Space, s[k + 1..]);
      var n := if q < |s| && In(Quote, s[q]) then q + 1 - (k + 1) else q - (k + 1);
      HeadsShift(Assignment, s, i, k + 1, Ends(AfterMarker, s, k + 1), n);
    } else {
      NoHeads(Assignment, s, i);
    }
  }

  /** `NameTail` at a place of a longer text. */
  lemma TailAt(s: string, i: nat)
    requires i <= |s|
    ensures var k := i + RunLen(Space, s[i..]);
            NameTail(s[i..]) ==
            if k < |s| && In(Marker, s[k]) then
              var q := k + 1 + RunLen(Space, s[k + 1..]);
              Some(if q < |s| && In(Quote, s[q]) then q + 1 - i else q - i)
            else None
  {
    hide RunLen, In;
    var m := RunLen(Space, s[i..]);
    if i + m < |s| {
      assert s[i..][m + 1..] == s[i + m + 1..];
      assert s[i..][m] == s[i + m];
      var q := i + m + 1 + RunLen(Space, s[i + m + 1..]);
      assert q < |s| ==> s[i..][q - i] == s[q];
    }
  }

  lemma HeadsShift(p: Pass, s: string, i: nat, k: nat, heads: seq<nat>, n: nat)
    requires i <= k && HeadsAgree(p, s, k, heads, Some(n))
    ensures HeadsAgree(p, s, i, heads, Some(k + n - i))
  {
    hide Blocked;
  }

  lemma NoHeads(p: Pass, s: string, i: nat)
    ensures HeadsAgree(p, s, i, [], None)
  {
  }

  lemma SpacesThenMarker(rest: Regex, s: string, i: nat)
    requires i <= |s|
    ensures Ends(Then(Many(Space), Then(One(Marker), rest)), s, i) ==
            var m := i + RunLen(Space, s[i..]); if m < |s| && In(Marker, s[m]) then Ends(rest, s, m + 1) else []
  {
    hide Ends, RunLen;
    var tail := Then(One(Marker), rest);
    ManyEnds(Space, s, i);
    var mids := Ends(Many(Space), s, i);
    forall j | 1 <= j < |mids| ensures Ends(tail, s, mids[j]) == [] {
      RunMember(Space, s, i, mids[j]);
      AtMarker(rest, s, mids[j]);
    }
    ThenFirst(Many(Space), tail, s, i);
    AtMarker(rest, s, mids[0]);
  }

  lemma AtMarker(rest: Regex, s: string, m: nat)
    requires m <= |s|
    ensures Ends(Then(One(Marker), rest), s, m) ==
            if m < |s| && In(Marker, s[m]) then Ends(rest, s, m + 1) else []
  {
    ThenFirst(One(Marker), rest, s, m);
  }

  lemma Heads(p: Pass, s: string, i: nat)
    requires i <= |s|
    ensures HeadsAgree(p, s, i, Ends(RuleOf(p).head, s, i), HeadLen(p, s[i..]))
  {
    match p
    case Bearer => BearerHeads(s, i);
    case UrlUserinfo => UrlHeads(s, i);
    case Assignment => AssignmentHeads(s, i);
    case KeyValue => KeyHeads(s, i);
  }

  function SecretEnd(p: Pass, s: string, k: nat): Option<nat>
    requires k <= |s|
  {
    var n := RunLen(SecretClass(p), s[k..]);
    if n == 0 then None
    else if p != UrlUserinfo then Some(k + n)
    else if k + n < |s| && s[k + n] == '@' then Some(k + n + 1) else None
  }

  lemma SecretEnds(p: Pass, s: string, k: nat)
    requires k <= |s|
    ensures var ends := Ends(RuleOf(p).secret, s, k);
            match SecretEnd(p, s, k) case None => ends == [] case Some(e) => ends != [] && ends[0] == e
  {
    hide Chain, RunLen;
    PlusEnds(SecretClass(p), s, k);
    if p == UrlUserinfo {
      var starts := Ends(Plus(UserinfoChar), s, k);
      forall j | 1 <= j < |starts| ensures Ends(Word("@"), s, starts[j]) == [] {
        assert In(UserinfoChar, s[k..][starts[j] - k]);
        assert s[starts[j]..][0] != "@"[0];
      }
      ThenFirst(Plus(UserinfoChar), Word("@"), s, k);
    }
  }

  /** The pass finds exactly the first match of its regular expression. */
  lemma {:induction false} FindIsFirstMatch(p: Pass, s: string, i: nat)
    requires i <= |s|
    ensures FirstSplit(Ends(RuleOf(p).head, s, i), RuleOf(p).secret, s) ==
            match Find(p, s[i..])
            case None => None
            case Some(h) => Some((i + HeadLen(p, s[i..]).value, i + h.end))
  {
    hide Ends, HeadLen, RunLen, RuleOf, FirstSplit, Blocked, SecretEnd, Find;
    Heads(p, s, i);
    var heads := Ends(RuleOf(p).head, s, i);
    forall j | 1 <= j < |heads| ensures Ends(RuleOf(p).secret, s, heads[j]) == [] {
      BlockedSecret(p, s, heads[j]);
      SecretEnds(p, s, heads[j]);
    }
    SplitFirst(heads, RuleOf(p).secret, s);
    FindBySecret(p, s, i);
    if heads != [] {
      SecretEnds(p, s, heads[0]);
    }
  }

  lemma BlockedSecret(p: Pass, s: string, k: nat)
    requires Blocked(p, s, k)
    ensures k <= |s| && SecretEnd(p, s, k) == None
  {
    hide In;
    assert s[k..][0] == s[k];
  }

  lemma FindBySecret(p: Pass, s: string, i: nat)
    requires i <= |s|
    ensures match HeadLen(p, s[i..])
            case None => Find(p, s[i..]) == None
            case Some(n) =>
              match SecretEnd(p, s, i + n)
              case None => Find(p, s[i..]) == None
              case Some(e) => Find(p, s[i..]).Some? && i + Find(p, s[i..]).value.end == e
  {
    hide HeadLen, RunLen;
    match HeadLen(p, s[i..])
    case None =>
    case Some(n) => assert s[i..][n..] == s[i + n..];
  }

  lemma ReplaceAllStep(r: Rule, s: string, i: nat)
    requires i < |s|
    ensures ReplaceAll(r, s, i) ==
            match FirstSplit(Ends(r.head, s, i), r.secret, s)
            case Some((k, e)) =>
              if e > i then s[i..if r.keepHead then k else i] + PLACEHOLDER + r.tail + ReplaceAll(r, s, e)
              else [s[i]] + ReplaceAll(r, s, i + 1)
            case None => [s[i]] + ReplaceAll(r, s, i + 1)
  {
  }

  lemma ReplaceAllEnd(r: Rule, s: string)
    ensures ReplaceAll(r, s, |s|) == ""
  {
  }

  lemma RuleShape(p: Pass)
    ensures RuleOf(p).keepHead == (p != KeyValue)
    ensures RuleOf(p).tail == if p == UrlUserinfo then "@" else ""
  {
  }

  lemma MaskedText(p: Pass, s: string, i: nat, h: Hit)
    requires i + h.keep <= |s|
    ensures Masked(p, s[i..], h) == s[i..i + h.keep] + PLACEHOLDER + RuleOf(p).tail
  {
    hide RuleOf;
    RuleShape(p);
    assert s[i..][..h.keep] == s[i..i + h.keep];
  }

  lemma PassStep(p: Pass, s: string, i: nat)
    requires i < |s|
    ensures match Find(p, s[i..])
            case None => Replace(p, s[i..]) == [s[i]] + Replace(p, s[i + 1..])
            case Some(h) =>
              && 0 < h.end <= |s| - i
              && Replace(p, s[i..]) == Masked(p, s[i..], h) + Replace(p, s[i + h.end..])
  {
    hide Find, Masked, Replace;
    ReplaceStep(p, s[i..]);
    match Find(p, s[i..])
    case None => assert s[i..][1..] == s[i + 1..];
    case Some(h) => assert s[i..][h.end..] == s[i + h.end..];
  }

  lemma RuleStep(p: Pass, s: string, i: nat)
    requires i < |s|
    ensures match Find(p, s[i..])
            case None => ReplaceAll(RuleOf(p), s, i) == [s[i]] + ReplaceAll(RuleOf(p), s, i + 1)
            case Some(h) =>
              h.end <= |s| - i ==>
                ReplaceAll(RuleOf(p), s, i) == Masked(p, s[i..], h) + ReplaceAll(RuleOf(p), s, i + h.end)
  {
    hide Ends, Find, FirstSplit, RuleOf, ReplaceAll, Masked;
    FindIsFirstMatch(p, s, i);
    ReplaceAllStep(RuleOf(p), s, i);
    if Find(p, s[i..]).Some? {
      MaskedText(p, s, i, Find(p, s[i..]).value);
      RuleShape(p);
    }
  }

  /** Every pass is leftmost, non-overlapping, greedy replace-all of its regular expression. */
  lemma {:induction false} PassIsReplaceAll(p: Pass, s: string, i: nat)
    requires i <= |s|
    ensures Replace(p, s[i..]) == ReplaceAll(RuleOf(p), s, i)
    decreases |s| - i
  {
    hide *;
    if i == |s| {
      ReplaceStep(p, s[i..]);
      ReplaceAllEnd(RuleOf(p), s);
    } else {
      PassStep(p, s, i);
      RuleStep(p, s, i);
      match Find(p, s[i..])
      case None => PassIsReplaceAll(p, s, i + 1);
      case Some(h) => PassIsReplaceAll(p, s, i + h.end);
    }
  }
}
