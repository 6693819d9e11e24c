/** The core's own checks of a remote configuration, and why everything `resolve` accepts
    passes them: its two URL parsers agree. */
module RustHosts {
  import opened Optional
  import opened Redaction
  import opened RustResolve

  const DEFAULT_ALLOWED_HOSTS: seq<string> :=
    [PRODUCTION_HOST, STAGING_HOST, "localhost", "127.0.0.1", "::1"]

  /** Up to the first `c`, or everything. */
  function Until(s: string, c: char): string {
    match SplitOnce(s, [c])
    case None => s
    case Some((before, _)) => before
  }

  /** Scheme and host as written. */
  function ParseSchemeAndHost(url: string): Option<(string, string)> {
    match SplitOnce(url, "://")
    case None => None
    case Some((scheme, rest)) =>
      if scheme == "" then None
      else
        var hostPort := HostPort(rest);
        var host := if StartsWith(hostPort, "[") then Until(hostPort[1..], ']') else Until(hostPort, ':');
        if host == "" then None else Some((scheme, host))
  }

  /** `lower` is Rust's Unicode lowercasing, of which only this is used: it agrees with ASCII lowercasing
      on ASCII text, does not care whether ASCII letters were lowered before, and empties no text. */
  ghost predicate Lowercasing(lower: string -> string) {
    && (forall s :: lower(AsciiLower(s)) == lower(s))
    && (forall s :: (forall i :: 0 <= i < |s| ==> s[i] < '\U{80}') ==> lower(s) == AsciiLower(s))
    && (forall s :: lower(s) == "" <==> s == "")
  }

  /** Lowercasing ASCII letters alone is such a function. */
  lemma AsciiIsLowercasing()
    ensures Lowercasing(AsciiLower)
  {
    hide AsciiLower;
    forall s ensures AsciiLower(AsciiLower(s)) == AsciiLower(s) && (AsciiLower(s) == "" <==> s == "") {
      LowerFixed(AsciiLower(s));
    }
  }

  ghost predicate Admits(lower: string -> string, scheme: string, host: string, allow: seq<string>) {
    && (scheme == "http" || scheme == "https") && host != ""
    && (scheme == "http" ==> host in LOOPBACK_HOSTS)
    && exists i :: 0 <= i < |allow| && (lower(allow[i]) == "*" || lower(allow[i]) == host)
  }

  /** Whether the host URL passes the allowlist, the default one when none is given. */
  ghost predicate HostAllowed(lower: string -> string, url: string, allowedHosts: Option<seq<string>>) {
    match ParseSchemeAndHost(url)
    case None => false
    case Some((scheme, host)) =>
      Admits(lower, lower(scheme), lower(host),
             if allowedHosts.Some? && allowedHosts.value != [] then allowedHosts.value else DEFAULT_ALLOWED_HOSTS)
  }

  predicate IsBlank(v: Option<string>) { v.None? || Trim(v.value) == "" }

  predicate InitOptionsValid(mode: Option<Mode>, key: Option<string>, url: Option<string>) {
    match mode
    case None => false
    case Some(Remote) => !IsBlank(key) && !IsBlank(url)
    case Some(Local) => IsBlank(key) && IsBlank(url)
  }

  // ---- the parsers ----

  /** What `parse_url` demands beyond the core's parser: a scheme of letters, a host without whitespace,
      a closed bracket, a port of digits. */
  predicate Strict(url: string) {
    match SplitOnce(url, "://")
    case None => false
    case Some((scheme, rest)) =>
      AllLetters(scheme) &&
      match SplitHostPort(HostPort(rest))
      case None => false
      case Some((host, port)) => NoWhite(host) && (port.Some? ==> AllDigits(port.value))
  }

  lemma SameHost(hostPort: string)
    ensures match SplitHostPort(hostPort)
            case None => StartsWith(hostPort, "[")
            case Some((host, _)) =>
              host == if StartsWith(hostPort, "[") then Until(hostPort[1..], ']') else Until(hostPort, ':')
  {
  }

  /** The two parsers read the same scheme and host off every URL; `parse_url` only refuses more. */
  lemma ParsersAgree(url: string)
    ensures ParseUrl(url) ==
            match ParseSchemeAndHost(url)
            case None => None
            case Some((scheme, host)) => if Strict(url) then Some((AsciiLower(scheme), AsciiLower(host))) else None
    ensures ParseUrl(url).Some? ==> AllLetters(ParseSchemeAndHost(url).value.0) && ParseSchemeAndHost(url).value.1 != ""
  {
    hide AsciiLower, HostPort, SplitHostPort, Until, NoWhite, AllDigits;
    match SplitOnce(url, "://")
    case None =>
    case Some((scheme, rest)) => SameHost(HostPort(rest));
  }

  /** Userinfo, path, query and fragment never reach the host either parser reports. */
  lemma {:induction false} HostHasNoDelimiters(rest: string)
    ensures forall i :: 0 <= i < |HostPort(rest)| ==> !EndsAuthority(HostPort(rest)[i]) && HostPort(rest)[i] != '@'
  {
    AuthorityChars(rest);
    BehindAt(Authority(rest));
  }

  lemma {:induction false} AuthorityChars(rest: string)
    ensures forall i :: 0 <= i < |Authority(rest)| ==> !EndsAuthority(Authority(rest)[i])
  {
    if rest != "" { AuthorityChars(rest[1..]); }
  }

  lemma {:induction false} BehindAt(s: string)
    ensures var t := BehindLastAt(s);
            |t| <= |s| && t == s[|s| - |t|..] && forall i :: 0 <= i < |t| ==> t[i] != '@'
    decreases |s|
  {
    hide SplitOnce;
    match SplitOnce(s, "@")
    case None => NoAt(s);
    case Some((before, after)) =>
      BehindAt(after);
      SuffixBehind(before + "@", after, |BehindLastAt(after)|);
  }

  lemma SuffixBehind(a: string, b: string, n: nat)
    requires n <= |b|
    ensures (a + b)[|a + b| - n..] == b[|b| - n..]
  {
  }

  lemma {:induction false} NoAt(s: string)
    requires SplitOnce(s, "@").None?
    ensures forall i :: 0 <= i < |s| ==> s[i] != '@'
    decreases |s|
  {
    FirstChar(s, '@');
    if s != "" {
      NoAt(s[1..]);
      forall i | 0 <= i < |s| ensures s[i] != '@' {
        if i > 0 { assert s[i] == s[1..][i - 1]; }
      }
    }
  }

  lemma FirstChar(s: string, c: char)
    ensures StartsWith(s, [c]) <==> s != "" && s[0] == c
  {
    if s != "" { assert s[..1] == [s[0]]; }
  }

  // ---- text facts ----

  lemma {:induction false} TrimEndSolid(s: string)
    ensures TrimEnd(s) == "" <==> forall i :: 0 <= i < |s| ==> IsWhite(s[i])
    ensures |TrimEnd(s)| <= |s| && TrimEnd(s) == s[..|TrimEnd(s)|]
    decreases |s|
  {
    hide IsWhite;
    if s != "" && IsWhite(s[|s| - 1]) {
      var t := s[..|s| - 1];
      TrimEndSolid(t);
      assert s == t + [s[|s| - 1]];
    }
  }

  /** Text is blank exactly when it is all whitespace; what is left of other text starts solid. */
  lemma TrimSolid(s: string)
    ensures Trim(s) == "" <==> forall i :: 0 <= i < |s| ==> IsWhite(s[i])
    ensures Trim(s) != "" ==> !IsWhite(Trim(s)[0])
  {
    hide IsWhite, RunLen, TrimEnd;
    var n := RunLen(White, s);
    var t := s[n..];
    TrimEndSolid(t);
    WhiteRun(s);
    if t != "" { assert t[0] == s[n]; }
  }

  lemma WhiteRun(s: string)
    ensures var n := RunLen(White, s);
            && n <= |s| && (forall i :: 0 <= i < n ==> IsWhite(s[i])) && (n < |s| ==> !IsWhite(s[n]))
  {
    hide IsWhite, RunLen;
  }

  lemma SolidNotBlank(s: string, i: nat)
    requires i < |s| && !IsWhite(s[i])
    ensures !IsBlank(Some(s))
  {
    hide IsWhite, Trim;
    TrimSolid(s);
  }

  lemma TrimmedNotBlank(v: Option<string>)
    requires Trimmed(v).Some?
    ensures !IsBlank(Trimmed(v))
  {
    hide IsWhite, Trim;
    TrimSolid(v.value);
    SolidNotBlank(Trim(v.value), 0);
  }

  lemma {:induction false} FirstSetNotBlank(names: seq<string>, env: Environment)
    ensures FirstSet(names, env).Some? ==> !IsBlank(Some(FirstSet(names, env).value.value))
  {
    hide Trimmed;
    if names != [] {
      if Lookup(env, names[0]).Some? { TrimmedNotBlank(env(names[0])); } else { FirstSetNotBlank(names[1..], env); }
    }
  }

  lemma PickedNotBlank(option: Option<string>, optionName: string, names: seq<string>, legacy: seq<string>,
                       env: Environment, replacement: string)
    ensures var p := Pick(option, optionName, names, legacy, env, replacement).found;
            p.Some? ==> !IsBlank(Some(p.value.value))
  {
    hide Trimmed, FirstSet, LegacyLine;
    FirstSetNotBlank(names, env);
    FirstSetNotBlank(legacy, env);
    if Trimmed(option).Some? { TrimmedNotBlank(option); }
  }

  lemma ParsedNotBlank(url: string)
    requires ParseUrl(url).Some?
    ensures !IsBlank(Some(url))
  {
    hide SplitHostPort, HostPort, NoWhite, AllDigits, AsciiLower, IsBlank;
    var (scheme, rest) := SplitOnce(url, "://").value;
    assert url[0] == scheme[0] && IsLetter(scheme[0]);
    SolidNotBlank(url, 0);
  }

  lemma AsciiFixed(lower: string -> string, h: string)
    requires Lowercasing(lower) && forall i :: 0 <= i < |h| ==> h[i] < '\U{80}' && AsciiLowerChar(h[i]) == h[i]
    ensures lower(h) == h
  {
    hide AsciiLower;
    LowerFixed(h);
  }

  lemma LoopbackAscii(lower: string -> string, h: string)
    requires Lowercasing(lower) && h in LOOPBACK_HOSTS
    ensures lower(h) == h
  {
    hide AsciiLower, Lowercasing;
    LoopbackChars(h);
    AsciiFixed(lower, h);
  }

  lemma LoopbackChars(h: string)
    requires h in LOOPBACK_HOSTS
    ensures forall i :: 0 <= i < |h| ==> h[i] < '\U{80}' && AsciiLowerChar(h[i]) == h[i]
  {
    assert LOOPBACK_HOSTS == ["localhost", "127.0.0.1", "::1"];
  }

  lemma LowerFixed(h: string)
    requires forall i :: 0 <= i < |h| ==> AsciiLowerChar(h[i]) == h[i]
    ensures AsciiLower(h) == h
  {
  }

  // ---- the endpoint `resolve` accepts ----

  lemma LettersLower(lower: string -> string, scheme: string)
    requires Lowercasing(lower) && AllLetters(scheme)
    ensures lower(scheme) == AsciiLower(scheme)
  {
    hide AsciiLower;
    forall i | 0 <= i < |scheme| ensures scheme[i] < '\U{80}' { assert IsLetter(scheme[i]); }
  }

  /** An override that passes `resolve` passes the allowlist `resolve` made for it. */
  lemma OverrideAllowed(lower: string -> string, url: string, host: string, scheme: string)
    requires Lowercasing(lower) && ParseUrl(url) == Some((scheme, host))
    requires scheme == "http" || scheme == "https"
    requires scheme == "http" ==> host in LOOPBACK_HOSTS
    ensures HostAllowed(lower, url, Some([host] + OtherLoopbacks(host, LOOPBACK_HOSTS)))
  {
    hide *;
    ParsersAgree(url);
    var (s0, h0) := ParseSchemeAndHost(url).value;
    LettersLower(lower, s0);
    LowerTwice(lower, h0);
    if scheme == "http" { LoopbackAscii(lower, host); }
    var allow := [host] + OtherLoopbacks(host, LOOPBACK_HOSTS);
    OwnHost(lower, scheme, host, lower(h0), OtherLoopbacks(host, LOOPBACK_HOSTS));
    AllowedFrom(lower, url, s0, h0, Some(allow), allow);
  }

  lemma AllowedFrom(lower: string -> string, url: string, s0: string, h0: string,
                    allowed: Option<seq<string>>, allow: seq<string>)
    requires ParseSchemeAndHost(url) == Some((s0, h0)) && Admits(lower, lower(s0), lower(h0), allow)
    requires if allowed.Some? && allowed.value != [] then allow == allowed.value else allow == DEFAULT_ALLOWED_HOSTS
    ensures HostAllowed(lower, url, allowed)
  {
    hide ParseSchemeAndHost, Admits;
  }

  lemma LowerTwice(lower: string -> string, h: string)
    requires Lowercasing(lower)
    ensures lower(AsciiLower(h)) == lower(h) && (lower(h) == "" <==> h == "")
  {
  }

  lemma OwnHost(lower: string -> string, scheme: string, host: string, low: string, others: seq<string>)
    requires (scheme == "http" || scheme == "https") && low != "" && lower(host) == low
    requires scheme == "http" ==> low in LOOPBACK_HOSTS
    ensures Admits(lower, scheme, low, [host] + others)
  {
    var allow := [host] + others;
    assert lower(allow[0]) == low;
  }

  predicate PlainHost(host: string) {
    host != "" && forall i :: 0 <= i < |host| ==> 'a' <= host[i] <= 'z' || host[i] == '-' || host[i] == '.'
  }

  lemma ChannelHostPlain(host: string)
    requires host == PRODUCTION_HOST || host == STAGING_HOST
    ensures PlainHost(host)
  {
  }

  lemma PlainLower(lower: string -> string, host: string)
    requires Lowercasing(lower) && PlainHost(host)
    ensures lower(host) == host
  {
    hide AsciiLower;
    LowerFixed(host);
  }

  /** Both channel hosts are in the core's own allowlist. */
  lemma ChannelAllowed(lower: string -> string, c: Channel)
    requires Lowercasing(lower)
    ensures HostAllowed(lower, ChannelUrl(c), None) && ParseUrl(ChannelUrl(c)).Some?
  {
    hide *;
    var host := ChannelHost(c);
    ChannelHostIs(c);
    ChannelHostPlain(host);
    HttpsLower(lower);
    PlainUrl("https", host);
    PlainLower(lower, host);
    DefaultAdmits(lower, host);
    AllowedFrom(lower, ChannelUrl(c), "https", host, None, DEFAULT_ALLOWED_HOSTS);
  }

  lemma ChannelHostIs(c: Channel)
    ensures ChannelHost(c) == PRODUCTION_HOST || ChannelHost(c) == STAGING_HOST
    ensures ChannelUrl(c) == "https" + "://" + ChannelHost(c)
  {
  }

  lemma HttpsLower(lower: string -> string)
    requires Lowercasing(lower)
    ensures lower("https") == "https" && AllLetters("https")
  {
    hide AsciiLower, Lowercasing;
    HttpsChars();
    AsciiFixed(lower, "https");
  }

  lemma HttpsChars()
    ensures forall i :: 0 <= i < |"https"| ==> var c := "https"[i]; c < '\U{80}' && AsciiLowerChar(c) == c && IsLetter(c)
  {
  }

  lemma DefaultAdmits(lower: string -> string, host: string)
    requires (host == PRODUCTION_HOST || host == STAGING_HOST) && lower(host) == host && PlainHost(host)
    ensures Admits(lower, "https", host, DEFAULT_ALLOWED_HOSTS)
  {
    assert DEFAULT_ALLOWED_HOSTS[if host == PRODUCTION_HOST then 0 else 1] == host;
  }

  /** A URL that is only a scheme and a plain host parses to exactly those. */
  lemma PlainUrl(scheme: string, host: string)
    requires AllLetters(scheme) && PlainHost(host)
    ensures ParseSchemeAndHost(scheme + "://" + host) == Some((scheme, host))
    ensures ParseUrl(scheme + "://" + host) == Some((AsciiLower(scheme), AsciiLower(host)))
  {
    hide IsWhite, AsciiLower, SplitOnce, BehindLastAt, Authority, StartsWith, AllDigits;
    SplitAtSeparator(scheme, host);
    WholeAuthority(host);
    NoSplit(host, "@");
    NoSplit(host, ":");
    NothingBehindAt(host);
    FirstChar(host, '[');
    PlainNoWhite(host);
  }

  lemma PlainNoWhite(host: string)
    requires PlainHost(host)
    ensures NoWhite(host)
  {
  }

  lemma {:induction false} SplitAtSeparator(scheme: string, host: string)
    requires forall i :: 0 <= i < |scheme| ==> IsLetter(scheme[i])
    ensures SplitOnce(scheme + "://" + host, "://") == Some((scheme, host))
  {
    var s := scheme + "://" + host;
    if scheme == "" {
      assert s == "://" + host && s[..3] == "://" && s[3..] == host;
    } else {
      assert s[0] == scheme[0] != "://"[0];
      assert s[1..] == scheme[1..] + "://" + host;
      SplitAtSeparator(scheme[1..], host);
      assert scheme == [scheme[0]] + scheme[1..];
    }
  }

  lemma {:induction false} WholeAuthority(host: string)
    requires forall i :: 0 <= i < |host| ==> !EndsAuthority(host[i])
    ensures Authority(host) == host
  {
    if host != "" { WholeAuthority(host[1..]); }
  }

  lemma {:induction false} NoSplit(s: string, sep: string)
    requires |sep| == 1 && forall i :: 0 <= i < |s| ==> s[i] != sep[0]
    ensures SplitOnce(s, sep) == None
    decreases |s|
  {
    FirstChar(s, sep[0]);
    assert [sep[0]] == sep;
    if s != "" { NoSplit(s[1..], sep); }
  }

  lemma NothingBehindAt(s: string)
    requires SplitOnce(s, "@") == None
    ensures BehindLastAt(s) == s
  {
  }

  lemma KeylessIsLocal(o: Options, env: Environment, build: Build, warnings: seq<string>)
    ensures var r := ResolveKeyless(o, env, build, warnings);
            r.Ok? ==> r.value.mode == Local && r.value.key == None && r.value.url == None
  {
    hide Pick, NoKeyError, IsDevEnvironment, Redact;
  }

  lemma LocalIsLocal(o: Options, env: Environment, build: Build)
    ensures var r := ResolveLocal(o, env, build); r.mode == Local && r.key == None && r.url == None
  {
    hide PickKey, IgnoredKeyLine;
  }

  /** A remote decision comes from a picked key and a resolved endpoint. */
  lemma RemoteParts(o: Options, env: Environment, build: Build)
    requires Resolve(o, env, build).Ok? && Resolve(o, env, build).value.mode == Remote
    ensures var r, key, (e, _) := Resolve(o, env, build).value, PickKey(o, env).found, ResolveUrl(o, env, build);
            && key.Some? && e.Ok? && r.key == Some(key.value.value)
            && r.url == Some(e.value.url) && r.allowedHosts == e.value.allowedHosts
  {
    hide Pick, PickKey, ResolveKeyless, ResolveLocal, ResolveUrl, FamilyOf, FamilyMessage, Redact;
    LocalIsLocal(o, env, build);
    KeylessIsLocal(o, env, build, PickKey(o, env).warnings);
  }

  /** Whatever `resolve` decides to run remotely, the core accepts: the key and URL are not blank and
      the endpoint passes the allowlist that goes with it. */
  lemma ResolvedIsAccepted(lower: string -> string, o: Options, env: Environment, build: Build)
    requires Lowercasing(lower) && Resolve(o, env, build).Ok? && Resolve(o, env, build).value.mode == Remote
    ensures var r := Resolve(o, env, build).value;
            InitOptionsValid(Some(Remote), r.key, r.url) && r.url.Some? && HostAllowed(lower, r.url.value, r.allowedHosts)
  {
    hide Resolve, ResolveUrl, Pick, HostAllowed, IsBlank, Lowercasing;
    RemoteParts(o, env, build);
    PickedNotBlank(o.key, OPT_KEY, [ENV_KEY], [LEGACY_KEY], env, ENV_KEY);
    EndpointAccepted(lower, o, env, build);
  }

  lemma EndpointAccepted(lower: string -> string, o: Options, env: Environment, build: Build)
    requires Lowercasing(lower)
    ensures var (e, _) := ResolveUrl(o, env, build);
            e.Ok? ==> !IsBlank(Some(e.value.url)) && HostAllowed(lower, e.value.url, e.value.allowedHosts)
  {
    hide Pick, HostAllowed, ParseUrl, IsBlank, OtherLoopbacks, Lowercasing, ChannelUrl, Redact, TrimSlashes, InvalidUrlMessage, HttpsMessage;
    var picked := Pick(o.url, OPT_URL, [ENV_URL], ["FW_API_URL", "FW_ATTEST_URL"], env, ENV_URL);
    match picked.found
    case None =>
      ChannelAllowed(lower, build.channel);
      ParsedNotBlank(ChannelUrl(build.channel));
    case Some(s) =>
      var raw := TrimSlashes(s.value);
      match ParseUrl(raw)
      case None =>
      case Some((scheme, host)) =>
        ParsedNotBlank(raw);
        if (scheme == "http" || scheme == "https") && (scheme == "http" ==> host in LOOPBACK_HOSTS) {
          OverrideAllowed(lower, raw, host, scheme);
        }
  }

  /** A local decision carries neither key nor URL, so the core accepts it too. */
  lemma ResolvedLocalIsAccepted(o: Options, env: Environment, build: Build)
    requires Resolve(o, env, build).Ok? && Resolve(o, env, build).value.mode == Local
    ensures var r := Resolve(o, env, build).value; InitOptionsValid(Some(Local), r.key, r.url)
  {
    hide PickKey, ResolveKeyless, ResolveLocal, ResolveUrl, FamilyOf, FamilyMessage, Redact;
    LocalIsLocal(o, env, build);
    KeylessIsLocal(o, env, build, PickKey(o, env).warnings);
  }
}
