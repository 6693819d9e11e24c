/** The text the redactor works on: character classes, the four passes, and the
    declarative meaning of each pass as a left-to-right rewriting of the text. */
module Redaction {
  import opened Optional

  const PLACEHOLDER := "[REDACTED]"

  const ASSIGNMENT_NAMES: seq<string> := ["FIREWEAVE_KEY", "FIREWEAVE_BROWSER_KEY", "FW_PROJECT_API_KEY"]

  const VALUE_PREFIXES: seq<string> :=
    ["project-api-key_", "fw_public_", "fw_ingest_pub_", "fw_org_", "cli_at_", "phc_", "phx_", "phs_"]

  datatype CharClass =
    | Space        // `\s` of the contract: the six ASCII whitespace characters
    | White        // Unicode White_Space, what the final collapse removes
    | TokenChar    // bearer alphabet
    | Letter
    | SchemeChar
    | UserinfoChar
    | Marker       // `=` or `:`
    | Quote
    | ValueChar
    | KeyChar

  predicate IsLetter(c: char) { 'a' <= c <= 'z' || 'A' <= c <= 'Z' }

  predicate IsAlphanumeric(c: char) { IsLetter(c) || '0' <= c <= '9' }

  predicate IsSpace(c: char) {
    c == ' ' || c == '\t' || c == '\n' || c == '\U{0B}' || c == '\U{0C}' || c == '\r'
  }

  predicate IsWhite(c: char) {
    || IsSpace(c)
    || c == '\U{85}' || c == '\U{A0}' || c == '\U{1680}'
    || '\U{2000}' <= c <= '\U{200A}'
    || c == '\U{2028}' || c == '\U{2029}' || c == '\U{202F}' || c == '\U{205F}' || c == '\U{3000}'
  }

  predicate In(cls: CharClass, c: char) {
    match cls
    case Space => IsSpace(c)
    case White => IsWhite(c)
    case TokenChar =>
      IsAlphanumeric(c) || c == '.' || c == '_' || c == '~' || c == '+' || c == '/' || c == '=' || c == '-'
    case Letter => IsLetter(c)
    case SchemeChar => IsAlphanumeric(c) || c == '+' || c == '.' || c == '-'
    case UserinfoChar => !IsSpace(c) && c != '/' && c != '?' && c != '#' && c != '@'
    case Marker => c == '=' || c == ':'
    case Quote => c == '"' || c == '\''
    case ValueChar => !IsSpace(c) && c != '"' && c != '\'' && c != ',' && c != ';'
    case KeyChar => IsAlphanumeric(c) || c == '_' || c == '-'
  }

  /** Length of the longest prefix of `s` made of `cls` characters. */
  function RunLen(cls: CharClass, s: string): (n: nat)
    ensures n <= |s|
    ensures forall k :: 0 <= k < n ==> In(cls, s[k])
    ensures n < |s| ==> !In(cls, s[n])
  {
    if s == "" || !In(cls, s[0]) then 0 else 1 + RunLen(cls, s[1..])
  }

  predicate StartsWith(s: string, w: string) { |w| <= |s| && s[..|w|] == w }

  /** The first word of `ws` that `s` starts with. */
  function FirstWord(ws: seq<string>, s: string): (r: Option<string>)
    ensures r.Some? ==> r.value in ws && StartsWith(s, r.value)
    ensures r.None? ==> forall w :: w in ws ==> !StartsWith(s, w)
  {
    if ws == [] then None
    else if StartsWith(s, ws[0]) then Some(ws[0])
    else FirstWord(ws[1..], s)
  }

  // ---- the four passes ----

  datatype Pass = Bearer | UrlUserinfo | Assignment | KeyValue

  /** One match at the start of a text: `keep` characters stay, the match is `end` long. */
  datatype Hit = Hit(keep: nat, end: nat)

  function SecretClass(p: Pass): CharClass {
    match p
    case Bearer => TokenChar
    case UrlUserinfo => UserinfoChar
    case Assignment => ValueChar
    case KeyValue => KeyChar
  }

  /** `Bearer\s+` */
  function BearerHead(s: string): (r: Option<nat>)
    ensures r.Some? ==> 0 < r.value <= |s|
  {
    if !StartsWith(s, "Bearer") then None
    else
      var ws := RunLen(Space, s[6..]);
      if ws == 0 then None else Some(6 + ws)
  }

  /** `[A-Za-z][A-Za-z0-9+.-]*://` */
  function UrlHead(s: string): (r: Option<nat>)
    ensures r.Some? ==> 0 < r.value <= |s|
  {
    if s == "" || !In(Letter, s[0]) then None
    else
      var n := RunLen(SchemeChar, s);
      if StartsWith(s[n..], "://") then Some(n + 3) else None
  }

  /** `\s*[=:]\s*["']?`, what stands between a name and its value */
  function NameTail(s: string): (r: Option<nat>)
    ensures r.Some? ==> 0 < r.value <= |s|
  {
    var m := RunLen(Space, s);
    if m == |s| || !In(Marker, s[m]) then None
    else
      var q := m + 1 + RunLen(Space, s[m + 1..]);
      Some(if q < |s| && In(Quote, s[q]) then q + 1 else q)
  }

  function AssignmentHead(s: string): (r: Option<nat>)
    ensures r.Some? ==> 0 < r.value <= |s|
  {
    match FirstWord(ASSIGNMENT_NAMES, s)
    case None => None
    case Some(name) =>
      match NameTail(s[|name|..])
      case None => None
      case Some(t) => Some(|name| + t)
  }

  function KeyHead(s: string): (r: Option<nat>)
    ensures r.Some? ==> 0 < r.value <= |s|
  {
    match FirstWord(VALUE_PREFIXES, s)
    case None => None
    case Some(prefix) => assert prefix != ""; Some(|prefix|)
  }

  /** Length of what precedes the secret. */
  function HeadLen(p: Pass, s: string): (r: Option<nat>)
    ensures r.Some? ==> 0 < r.value <= |s|
  {
    match p
    case Bearer => BearerHead(s)
    case UrlUserinfo => UrlHead(s)
    case Assignment => AssignmentHead(s)
    case KeyValue => KeyHead(s)
  }

  /** The match of pass `p` at the start of `s`, if there is one. */
  function Find(p: Pass, s: string): (r: Option<Hit>)
    ensures r.Some? ==> r.value.keep < r.value.end <= |s|
    ensures r.Some? ==> HeadLen(p, s).Some? && r.value.keep == if p == KeyValue then 0 else HeadLen(p, s).value
  {
    match HeadLen(p, s)
    case None => None
    case Some(h) =>
      var n := RunLen(SecretClass(p), s[h..]);
      if n == 0 then None
      else if p == UrlUserinfo then
        if h + n < |s| && s[h + n] == '@' then Some(Hit(h, h + n + 1)) else None
      else Some(Hit(if p == KeyValue then 0 else h, h + n))
  }

  /** What a match is replaced by. */
  function Masked(p: Pass, s: string, h: Hit): string
    requires h.keep <= |s|
  {
    s[..h.keep] + PLACEHOLDER + (if p == UrlUserinfo then "@" else "")
  }

  /** Leftmost, non-overlapping replacement of every match of pass `p`. */
  function Replace(p: Pass, s: string): string {
    if s == "" then ""
    else
      match Find(p, s)
      case Some(h) => Masked(p, s, h) + Replace(p, s[h.end..])
      case None => [s[0]] + Replace(p, s[1..])
  }

  /** The definition of `Replace`, one step, for proofs that hide it. */
  lemma ReplaceStep(p: Pass, s: string)
    ensures s == "" ==> Replace(p, s) == ""
    ensures s != "" && Find(p, s).None? ==> Replace(p, s) == [s[0]] + Replace(p, s[1..])
    ensures s != "" && Find(p, s).Some? ==>
              Replace(p, s) == Masked(p, s, Find(p, s).value) + Replace(p, s[Find(p, s).value.end..])
  {
  }

  /** Whitespace runs become one space; leading and trailing whitespace goes. */
  function Squeeze(s: string): string {
    if s == "" then ""
    else if IsWhite(s[0]) then
      var rest := s[RunLen(White, s)..];
      if rest == "" then "" else " " + Squeeze(rest)
    else [s[0]] + Squeeze(s[1..])
  }

  function Collapse(s: string): string { Squeeze(s[RunLen(White, s)..]) }

  function MaskAll(s: string): string {
    Replace(KeyValue, Replace(Assignment, Replace(UrlUserinfo, Replace(Bearer, s))))
  }

  function Redact(s: string): string { Collapse(MaskAll(s)) }

  // ---- what may still be found in a text ----

  /** No match of `p` starts anywhere in `s`. */
  predicate NoHit(p: Pass, s: string) {
    s == "" || (Find(p, s).None? && NoHit(p, s[1..]))
  }

  /** Every match of `p`, wherever it starts, already has the placeholder as its secret. */
  predicate AllMasked(p: Pass, s: string) {
    s == "" || (
      && (var h := Find(p, s); h.Some? ==> s[..h.value.end] == Masked(p, s, h.value))
      && AllMasked(p, s[1..]))
  }

  /** All whitespace in the text is the ASCII whitespace the passes recognise. */
  predicate AsciiSpaced(s: string) {
    forall k :: 0 <= k < |s| ==> (IsWhite(s[k]) ==> IsSpace(s[k]))
  }

  // ---- words ----

  /** No word of the list is a prefix of another one. */
  predicate PrefixFree(ws: seq<string>) {
    forall a, b :: 0 <= a < b < |ws| ==> !StartsWith(ws[a], ws[b]) && !StartsWith(ws[b], ws[a])
  }

  /** Of two prefixes of one text, one is a prefix of the other. */
  lemma PrefixesCompare(s: string, a: string, b: string)
    requires StartsWith(s, a) && StartsWith(s, b)
    ensures StartsWith(a, b) || StartsWith(b, a)
  {
    if |a| <= |b| {
      assert b[..|a|] == s[..|b|][..|a|] == a;
    } else {
      assert a[..|b|] == s[..|a|][..|b|] == b;
    }
  }

  lemma NamesPrefixFree()
    ensures PrefixFree(ASSIGNMENT_NAMES)
  {
    var a, b, c := ASSIGNMENT_NAMES[0], ASSIGNMENT_NAMES[1], ASSIGNMENT_NAMES[2];
    assert a[10] == 'K' && b[10] == 'B' && a[1] == b[1] == 'I' && c[1] == 'W';
    assert !StartsWith(a, b) && !StartsWith(b, a) by { assert b[..|a|][10] == 'B'; }
    assert !StartsWith(a, c) && !StartsWith(c, a) by { assert c[..|a|][1] == 'W'; }
    assert !StartsWith(b, c) && !StartsWith(c, b) by { assert b[..|c|][1] == 'I'; }
  }

  lemma PrefixesPrefixFree()
    ensures PrefixFree(VALUE_PREFIXES)
  {
    forall a, b | 0 <= a < b < |VALUE_PREFIXES|
      ensures !StartsWith(VALUE_PREFIXES[a], VALUE_PREFIXES[b]) && !StartsWith(VALUE_PREFIXES[b], VALUE_PREFIXES[a])
    {
      var v, w := VALUE_PREFIXES[a], VALUE_PREFIXES[b];
      assert v[0] != w[0] || v[2] != w[2] || v[3] != w[3];
    }
  }

  lemma RunLenIs(cls: CharClass, s: string, n: nat)
    requires n <= |s| && (n < |s| ==> !In(cls, s[n])) && forall k :: 0 <= k < n ==> In(cls, s[k])
    ensures RunLen(cls, s) == n
  {
    hide RunLen, In;
  }

  /** What the proofs use of the prefixes: key characters, starting `p`, `f` or `c`. */
  lemma PrefixChars(w: string)
    requires w in VALUE_PREFIXES
    ensures w != "" && (w[0] == 'p' || w[0] == 'f' || w[0] == 'c')
    ensures forall k :: 0 <= k < |w| ==> IsAlphanumeric(w[k]) || w[k] == '_' || w[k] == '-'
  {
  }

  /** What the proofs use of the names: capitals and underscores, one `F`, at the front. */
  lemma NameChars(w: string)
    requires w in ASSIGNMENT_NAMES
    ensures w != "" && w[0] == 'F'
    ensures forall k :: 0 < k < |w| ==> w[k] != 'F' && ('A' <= w[k] <= 'Z' || w[k] == '_')
  {
  }
}
