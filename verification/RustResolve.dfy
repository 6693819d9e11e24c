/** How the Rust start profile turns options and environment into one decision. */
module RustResolve {
  import opened Optional
  import opened Redaction

  // ---- text ----

  function TrimEnd(s: string): string
    decreases |s|
  {
    if s != "" && IsWhite(s[|s| - 1]) then TrimEnd(s[..|s| - 1]) else s
  }

  function Trim(s: string): string { TrimEnd(s[RunLen(White, s)..]) }

  function TrimSlashes(s: string): string
    decreases |s|
  {
    if s != "" && s[|s| - 1] == '/' then TrimSlashes(s[..|s| - 1]) else s
  }

  /** A value with its surrounding whitespace removed; blank is the same as absent. */
  function Trimmed(value: Option<string>): (r: Option<string>) {
    if value.Some? && Trim(value.value) != "" then Some(Trim(value.value)) else None
  }

  function AsciiLowerChar(c: char): char { if 'A' <= c <= 'Z' then (c as int + 32) as char else c }

  function AsciiLower(s: string): (r: string)
    ensures |r| == |s| && forall i :: 0 <= i < |s| ==> r[i] == AsciiLowerChar(s[i])
  {
    if s == "" then "" else [AsciiLowerChar(s[0])] + AsciiLower(s[1..])
  }

  /** Around the first occurrence of `sep`. */
  function SplitOnce(s: string, sep: string): (r: Option<(string, string)>)
    ensures r.Some? ==> s == r.value.0 + sep + r.value.1
    decreases |s|
  {
    if StartsWith(s, sep) then
      assert s == "" + sep + s[|sep|..];
      Some(("", s[|sep|..]))
    else if s == "" then None
    else
      match SplitOnce(s[1..], sep)
      case None => None
      case Some((before, after)) =>
        SplitBehind(s, before, sep, after);
        Some(([s[0]] + before, after))
  }

  lemma SplitBehind(s: string, before: string, sep: string, after: string)
    requires s != "" && s[1..] == before + sep + after
    ensures s == ([s[0]] + before) + sep + after
  {
    assert s == [s[0]] + s[1..];
  }

  /** Behind the last `@`, or everything. */
  function BehindLastAt(s: string): string
    decreases |s|
  {
    match SplitOnce(s, "@")
    case None => s
    case Some((before, after)) => assert |s| == |before| + 1 + |after|; BehindLastAt(after)
  }

  predicate EndsAuthority(c: char) { c == '/' || c == '?' || c == '#' }

  function Authority(rest: string): string {
    if rest == "" || EndsAuthority(rest[0]) then "" else [rest[0]] + Authority(rest[1..])
  }

  function HostPort(rest: string): string { BehindLastAt(Authority(rest)) }

  // ---- parse_url ----

  predicate AllLetters(s: string) { s != "" && forall i :: 0 <= i < |s| ==> IsLetter(s[i]) }

  predicate AllDigits(s: string) { s != "" && forall i :: 0 <= i < |s| ==> '0' <= s[i] <= '9' }

  predicate NoWhite(s: string) { forall i :: 0 <= i < |s| ==> !IsWhite(s[i]) }

  /** Host and port text; nothing when a bracket is left open. */
  function SplitHostPort(hostPort: string): Option<(string, Option<string>)> {
    if StartsWith(hostPort, "[") then
      match SplitOnce(hostPort[1..], "]")
      case None => None
      case Some((host, after)) => Some((host, if StartsWith(after, ":") then Some(after[1..]) else None))
    else
      match SplitOnce(hostPort, ":")
      case None => Some((hostPort, None))
      case Some((host, port)) => Some((host, Some(port)))
  }

  /** Lowercased scheme and host. */
  function ParseUrl(url: string): Option<(string, string)> {
    match SplitOnce(url, "://")
    case None => None
    case Some((scheme, rest)) =>
      if !AllLetters(scheme) then None
      else
        match SplitHostPort(HostPort(rest))
        case None => None
        case Some((host, port)) =>
          if host == "" || !NoWhite(host) || (port.Some? && !AllDigits(port.value)) then None
          else Some((AsciiLower(scheme), AsciiLower(host)))
  }

  // ---- options, environment, decision ----

  datatype Mode = Local | Remote

  datatype Channel = Production | Staging

  datatype Build = Build(channel: Channel, version: string)

  datatype Options = Options(mode: Option<Mode>, key: Option<string>, url: Option<string>,
                             environment: Option<string>, instanceId: Option<string>,
                             controlPoints: map<string, bool>)

  /** One environment variable, as the process gives it. */
  type Environment = string -> Option<string>

  /** What the start profile reads: trimmed, blank as unset. */
  function Lookup(env: Environment, name: string): Option<string> { Trimmed(env(name)) }

  datatype Sourced = Sourced(value: string, source: string)

  datatype Error = Error(kind: string, message: string, quotaLimited: bool)

  /** Every error message goes through the redactor. */
  function ConfigError(message: string): Error { Error("Configuration", Redact(message), false) }

  datatype Resolved = Resolved(
    mode: Mode, modeSource: string, url: Option<string>, urlSource: Option<string>,
    allowedHosts: Option<seq<string>>, host: Option<string>, key: Option<string>, keySource: string,
    environment: Option<string>, environmentSource: Option<string>,
    controlPoints: map<string, bool>, build: Build, warnings: seq<string>)

  datatype Result<+T> = Ok(value: T) | Err(error: Error)

  const ENV_KEY := "FIREWEAVE_KEY"
  const LEGACY_KEY := "FW_PROJECT_API_KEY"
  const ENV_URL := "FIREWEAVE_URL"
  const ENV_ENVIRONMENT := "FIREWEAVE_ENV"
  const RETIRED_ENVIRONMENT := "FW_ENV"
  const OPT_KEY := "StartOptions.key"
  const OPT_URL := "StartOptions.url"
  const OPT_ENVIRONMENT := "StartOptions.environment"

  function LegacyLine(name: string, replacement: string): string {
    "[fireweave] " + name + " is a legacy name and will stop being read in the next major version (3.0). Rename it to "
    + replacement + "; the value does not change."
  }

  /** The first set one of `names`. */
  function FirstSet(names: seq<string>, env: Environment): Option<Sourced> {
    if names == [] then None
    else
      match Lookup(env, names[0])
      case Some(v) => Some(Sourced(v, names[0]))
      case None => FirstSet(names[1..], env)
  }

  datatype Picked = Picked(found: Option<Sourced>, warnings: seq<string>)

  /** The option, else the names in order, else the legacy names, each of which warns. */
  function Pick(option: Option<string>, optionName: string, names: seq<string>, legacy: seq<string>,
                env: Environment, replacement: string): Picked
  {
    if Trimmed(option).Some? then Picked(Some(Sourced(Trimmed(option).value, optionName)), [])
    else
      match FirstSet(names, env)
      case Some(s) => Picked(Some(s), [])
      case None =>
        match FirstSet(legacy, env)
        case Some(s) => Picked(Some(s), [LegacyLine(s.source, replacement)])
        case None => Picked(None, [])
  }

  /** The two loops of `pick`. */
  method PickLoop(option: Option<string>, optionName: string, names: seq<string>, legacy: seq<string>,
                  env: Environment, replacement: string) returns (r: Picked)
    ensures r == Pick(option, optionName, names, legacy, env, replacement)
  {
    hide Trim, LegacyLine;
    var v := Trimmed(option);
    if v.Some? { return Picked(Some(Sourced(v.value, optionName)), []); }
    for i := 0 to |names|
      invariant FirstSet(names, env) == FirstSet(names[i..], env)
    {
      assert names[i..][0] == names[i] && names[i..][1..] == names[i + 1..];
      var value := Lookup(env, names[i]);
      if value.Some? { return Picked(Some(Sourced(value.value, names[i])), []); }
    }
    for i := 0 to |legacy|
      invariant FirstSet(legacy, env) == FirstSet(legacy[i..], env)
    {
      assert legacy[i..][0] == legacy[i] && legacy[i..][1..] == legacy[i + 1..];
      var value := Lookup(env, legacy[i]);
      if value.Some? {
        return Picked(Some(Sourced(value.value, legacy[i])), [LegacyLine(legacy[i], replacement)]);
      }
    }
    r := Picked(None, []);
  }

  // ---- the key ----

  /** The kinds of key told apart before any request. */
  datatype Family = Browser | Vendor | Organisation | Project

  predicate IsVendorKey(v: string) {
    |v| >= 4 && v[0] == 'p' && v[1] == 'h' && 'a' <= v[2] <= 'z' && v[3] == '_'
  }

  function FamilyOf(key: string): Family {
    if StartsWith(key, "fw_public_") then Browser
    else if IsVendorKey(key) then Vendor
    else if StartsWith(key, "fw_org_") || StartsWith(key, "cli_at_") then Organisation
    else Project
  }

  function FamilyMessage(f: Family, source: string): string
    requires f != Project
  {
    "The key from " + source + (
      match f
      case Browser => " is a browser key (fw_public_\U{2026}). Server apps need a project key (project-api-key_\U{2026}) from Project settings, API keys."
      case Vendor => " is an analytics vendor key, not a FireWeave project key. Use the project key (project-api-key_\U{2026})."
      case Organisation => " is an organisation or CLI token, not a project key. Use the project key (project-api-key_\U{2026}).")
  }

  function PickKey(o: Options, env: Environment): Picked {
    Pick(o.key, OPT_KEY, [ENV_KEY], [LEGACY_KEY], env, ENV_KEY)
  }

  // ---- the endpoint ----

  const LOOPBACK_HOSTS: seq<string> := ["localhost", "127.0.0.1", "::1"]

  const PRODUCTION_HOST := "app-server.fireweave.ai"
  const STAGING_HOST := "staging-app-server.fireweave.ai"

  function ChannelHost(c: Channel): string { if c == Production then PRODUCTION_HOST else STAGING_HOST }

  function ChannelUrl(c: Channel): string { "https" + "://" + ChannelHost(c) }

  function InvalidUrlMessage(source: string): string {
    "The endpoint from " + source + " is not a valid http or https URL."
  }

  function HttpsMessage(source: string): string {
    "The endpoint from " + source + " must use https (http is allowed only for localhost)."
  }

  datatype Endpoint = Endpoint(url: string, source: string, host: string, allowedHosts: Option<seq<string>>)

  /** The loopback hosts other than `host`. */
  function OtherLoopbacks(host: string, all: seq<string>): (r: seq<string>)
  {
    if all == [] then []
    else (if all[0] != host then [all[0]] else []) + OtherLoopbacks(host, all[1..])
  }

  function ResolveUrl(o: Options, env: Environment, build: Build): (Result<Endpoint>, seq<string>) {
    var picked := Pick(o.url, OPT_URL, [ENV_URL], ["FW_API_URL", "FW_ATTEST_URL"], env, ENV_URL);
    (match picked.found
     case None =>
       var url := ChannelUrl(build.channel);
       var host := match ParseUrl(url) case Some((_, h)) => h case None => "";
       Ok(Endpoint(url, if build.channel == Production then "SDK channel (production)" else "SDK channel (staging)",
                   host, None))
     case Some(s) =>
       var raw := TrimSlashes(s.value);
       match ParseUrl(raw)
       case None => Err(ConfigError(InvalidUrlMessage(s.source)))
       case Some((scheme, host)) =>
         if scheme != "http" && scheme != "https" then
           Err(ConfigError(InvalidUrlMessage(s.source)))
         else if scheme == "http" && host !in LOOPBACK_HOSTS then
           Err(ConfigError(HttpsMessage(s.source)))
         else Ok(Endpoint(raw, s.source, host, Some([host] + OtherLoopbacks(host, LOOPBACK_HOSTS)))),
     picked.warnings)
  }

  // ---- the environment name ----

  const DEV_ENVIRONMENTS: seq<string> := ["development", "dev", "local", "test"]

  predicate IsDevEnvironment(name: string) { AsciiLower(Trim(name)) in DEV_ENVIRONMENTS }

  /** Whether an environment name may be quoted back in an error. */
  predicate Echoable(v: string) {
    && v != "" && |v| <= 32
    && (forall i :: 0 <= i < |v| ==> IsAlphanumeric(v[i]) || v[i] == '.' || v[i] == '_' || v[i] == '-')
    && !IsVendorKey(v) && !StartsWith(v, "project-api-key_") && !StartsWith(v, "fw_")
  }

  function NoKeyText(found: Option<Sourced>, retired: bool): string {
    var place :=
      match found
      case None => "no environment name is set (checked StartOptions.environment, FIREWEAVE_ENV, APP_ENV)"
      case Some(s) =>
        if Echoable(s.value) then
          "the environment is \"" + s.value + "\" (from " + s.source + "), which is not a development name"
        else "the environment name from " + s.source + " is not a development name";
    "FIREWEAVE_KEY is not set and " + place
    + ". Set FIREWEAVE_KEY to the project's server key, or for local development set FIREWEAVE_ENV to development or pass StartOptions.mode Some(Mode::Local)."
    + (if retired then " FW_ENV is no longer read; rename it to FIREWEAVE_ENV." else "")
  }

  function NoKeyError(found: Option<Sourced>, env: Environment): Error {
    ConfigError(NoKeyText(found, found.None? && Lookup(env, RETIRED_ENVIRONMENT).Some?))
  }

  // ---- resolve ----

  function Blank(o: Options, build: Build): Resolved {
    Resolved(Local, "option", None, None, None, None, None, "none", None, None, o.controlPoints, build, [])
  }

  function IgnoredKeyLine(source: string): string {
    "[fireweave] StartOptions.mode Local ignores the key from " + source + "; nothing is sent to fw-server."
  }

  const NEEDS_KEY := "StartOptions.mode Remote needs a key. Set FIREWEAVE_KEY or pass StartOptions.key."

  function ResolveLocal(o: Options, env: Environment, build: Build): Resolved {
    match PickKey(o, env).found
    case None => Blank(o, build)
    case Some(s) =>
      Blank(o, build).(warnings := [IgnoredKeyLine(s.source)])
  }

  function ResolveKeyless(o: Options, env: Environment, build: Build, warnings: seq<string>): Result<Resolved> {
    if o.mode == Some(Remote) then
      Err(ConfigError(NEEDS_KEY))
    else
      var found := Pick(o.environment, OPT_ENVIRONMENT, [ENV_ENVIRONMENT, "APP_ENV"], [], env, ENV_ENVIRONMENT).found;
      if found.Some? && IsDevEnvironment(found.value.value) then
        Ok(Blank(o, build).(modeSource := "environment", environment := Some(found.value.value),
                            environmentSource := Some(found.value.source), warnings := warnings))
      else Err(NoKeyError(found, env))
  }

  function ResolveRemote(o: Options, env: Environment, build: Build, key: Sourced, warnings: seq<string>): Result<Resolved> {
    var (endpoint, more) := ResolveUrl(o, env, build);
    match endpoint
    case Err(e) => Err(e)
    case Ok(u) =>
      Ok(Resolved(Remote, if o.mode == Some(Remote) then "option" else "key", Some(u.url), Some(u.source),
                  u.allowedHosts, Some(u.host), Some(key.value), key.source, None, None,
                  o.controlPoints, build, warnings + more))
  }

  function Resolve(o: Options, env: Environment, build: Build): Result<Resolved> {
    if o.mode == Some(Local) then Ok(ResolveLocal(o, env, build))
    else
      var picked := PickKey(o, env);
      match picked.found
      case None => ResolveKeyless(o, env, build, picked.warnings)
      case Some(key) =>
        if FamilyOf(key.value) != Project then Err(ConfigError(FamilyMessage(FamilyOf(key.value), key.source)))
        else ResolveRemote(o, env, build, key, picked.warnings)
  }
}
