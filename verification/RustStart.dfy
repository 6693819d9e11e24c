/** The Rust start singleton: what a start, a read's acquisition, an observed failure
    and a shutdown do to its fields. */
module RustStart {
  import opened Optional
  import opened Redaction
  import opened RustResolve
  import opened Signatures

  datatype State = Unstarted | Ready | Failed | Shutdown

  type Client = nat

  datatype Fields = Fields(
    state: State, implicit: bool, implicitTried: bool, resolved: Option<Resolved>, sig: Option<Structural>,
    client: Option<Client>, err: Option<Error>, instanceOption: Option<string>, instanceKey: Option<string>,
    log: Option<nat>, warned: set<string>, remoteWarned: set<string>, lastErrorKind: Option<string>)

  const NEW := Fields(Unstarted, false, false, None, None, None, None, None, None, None, {}, {}, None)

  /** An error with its kind's default message, which is not part of this model. */
  function Plain(kind: string): Error { Error(kind, "", false) }

  /** A start: options, the environment they read, and what building the core client gives. */
  datatype Attempt = Attempt(options: Options, log: Option<nat>, env: Environment, init: Option<Error>)

  const DEFAULTS := Options(None, None, None, None, None, map[])

  function Fresh(s: Fields): Fields {
    s.(state := Unstarted, implicit := false, implicitTried := false, resolved := None, sig := None,
       client := None, err := None, lastErrorKind := None)
  }

  function Fail(s: Fields, e: Error): Fields { s.(state := Failed, err := Some(e), implicitTried := true) }

  datatype Warned = Warned(s: Fields, lines: seq<string>)

  function WarnOnce(s: Fields, line: string): Warned {
    if line in s.warned then Warned(s, []) else Warned(s.(warned := s.warned + {line}), [line])
  }

  function WarnEach(s: Fields, lines: seq<string>): Warned
    decreases |lines|
  {
    if lines == [] then Warned(s, [])
    else
      var first := WarnOnce(s, lines[0]);
      var rest := WarnEach(first.s, lines[1..]);
      Warned(rest.s, first.lines + rest.lines)
  }

  lemma WarnEachStep(s: Fields, lines: seq<string>, i: nat)
    requires i < |lines|
    ensures var first := WarnOnce(s, lines[i]);
            var rest := WarnEach(first.s, lines[i + 1..]);
            WarnEach(s, lines[i..]) == Warned(rest.s, first.lines + rest.lines)
  {
    hide WarnOnce;
    assert lines[i..][0] == lines[i] && lines[i..][1..] == lines[i + 1..];
  }

  lemma WarnNothing(s: Fields, lines: seq<string>)
    ensures WarnEach(s, lines[|lines|..]) == Warned(s, [])
  {
  }

  function NotStartedLine(e: Error): string {
    "[fireweave] " + e.message + " (FireWeave was not started; reads serve their defaults.)"
  }

  function InitFailedLine(e: Error): string {
    "[fireweave] start failed: " + e.message + ". Reads serve their defaults."
  }

  function Digits(n: nat): string { if n < 10 then [('0' as int + n) as char] else Digits(n / 10) + [('0' as int + n % 10) as char] }

  function LocalLine(r: Resolved): string {
    var why := if r.modeSource == "environment" then
                 "no FIREWEAVE_KEY; environment \"" + (if r.environment.Some? then r.environment.value else "")
                 + "\" from " + (if r.environmentSource.Some? then r.environmentSource.value else "")
               else "StartOptions.mode Local";
    "[fireweave:local] Local mode (" + why + "). Serving " + Digits(|r.controlPoints|)
    + (if |r.controlPoints| == 1 then " control point" else " control points")
    + " from your control points; nothing is sent to fw-server."
  }

  /** The names of the fields in which two signatures differ. */
  function Differs(a: Structural, b: Structural): (r: seq<string>)
    ensures r == [] <==> a == b
  {
    (if a.mode != b.mode then ["mode"] else [])
    + (if a.url != b.url then ["url"] else [])
    + (if a.key != b.key then ["key"] else [])
    + (if a.allowedHosts != b.allowedHosts then ["allowed hosts"] else [])
    + (if a.instanceId != b.instanceId then ["instance id"] else [])
    + (if a.controlPoints != b.controlPoints then ["control_points"] else [])
  }

  function Commas(names: seq<string>): string {
    if names == [] then "" else if |names| == 1 then names[0] else names[0] + ", " + Commas(names[1..])
  }

  function ConflictMessage(implicit: bool, fields: string): string {
    if implicit then
      "A control point was read before fireweave::start::start ran, so FireWeave started from the environment alone; this start differs in "
      + fields + ". Call start first in main, before anything reads a control point."
    else
      "fireweave::start::start was already called with a different configuration (" + fields + "). Call start once, from main."
  }

  const ID_CONFLICT :=
    "StartOptions.instance_id differs from the instance_key() already handed out. Pass instance_id on the first start."

  datatype Outcome = Outcome(s: Fields, lines: seq<string>, result: Option<Error>)

  function Install(s: Fields, r: Resolved, id: Option<string>, implicit: bool, built: Client): Fields {
    s.(state := Ready, implicit := implicit, implicitTried := true, resolved := Some(r),
       sig := Some(RustSignature(r, id)), client := Some(built), err := None,
       instanceOption := if id.Some? then id else s.instanceOption)
  }

  /** A start that resolved while nothing runs. */
  function Begin(s: Fields, a: Attempt, r: Resolved, implicit: bool, built: Client): Outcome {
    var id := Trimmed(a.options.instanceId);
    if id.Some? && s.instanceKey.Some? && s.instanceKey != id then Outcome(s, [], Some(ConfigError(ID_CONFLICT)))
    else
      var logged := if !implicit && a.log.Some? then s.(log := a.log) else s;
      match a.init
      case Some(e) =>
        var w := WarnOnce(Fail(logged, e), InitFailedLine(e));
        Outcome(w.s, w.lines, Some(e))
      case None =>
        var w := WarnEach(logged, r.warnings);
        Outcome(Install(w.s, r, id, implicit, built), w.lines + (if r.mode == Local then [LocalLine(r)] else []), None)
  }

  function Refuse(s: Fields, e: Error, implicit: bool): Outcome {
    if s.state == Ready then Outcome(s, [], Some(e))
    else
      var w := if implicit then WarnOnce(Fail(s, e), NotStartedLine(e)) else Warned(Fail(s, e), []);
      Outcome(w.s, w.lines, Some(e))
  }

  function Compare(s: Fields, r: Resolved, id: Option<string>): Outcome {
    var diff := if s.sig.Some? then Differs(s.sig.value, RustSignature(r, id)) else [];
    Outcome(s, [], if diff == [] then None else Some(ConfigError(ConflictMessage(s.implicit, Commas(diff)))))
  }

  function StartLocked(before: Fields, a: Attempt, implicit: bool, build: Build, built: Client): Outcome {
    var s := if before.state == Failed || before.state == Shutdown then Fresh(before) else before;
    match Resolve(a.options, a.env, build)
    case Err(e) => Refuse(s, e, implicit)
    case Ok(r) =>
      if s.state == Ready then Compare(s, r, Trimmed(a.options.instanceId)) else Begin(s, a, r, implicit, built)
  }

  predicate StartsImplicitly(s: Fields) { s.state == Unstarted && !s.implicitTried }

  function MissingLine(key: string): string {
    "[fireweave:local] \"" + key + "\" is not in your control points (src/fireweave_control_points.rs), so it gets its default. Add it there to try it locally."
  }

  const NOT_STARTED := Error("NotReady", "FireWeave was not started.", false)

  datatype Acquired = Acquired(s: Fields, lines: seq<string>, client: Result<Client>)

  function Look(s: Fields, key: Option<string>): Acquired {
    match s.state
    case Ready =>
      var missing := key.Some? && s.resolved.Some? && s.resolved.value.mode == Local
                     && key.value !in s.resolved.value.controlPoints;
      var w := if missing then WarnOnce(s, MissingLine(key.value)) else Warned(s, []);
      Acquired(w.s, w.lines, if s.client.Some? then Ok(s.client.value) else Err(Plain("NotReady")))
    case Shutdown => Acquired(s, [], Err(Plain("AlreadyClosed")))
    case _ => Acquired(s, [], Err(if s.err.Some? then s.err.value else NOT_STARTED))
  }

  function Acquire(before: Fields, key: Option<string>, env: Environment, init: Option<Error>, build: Build, built: Client)
    : Acquired
  {
    if StartsImplicitly(before) then
      var started := StartLocked(before, Attempt(DEFAULTS, None, env, init), true, build, built);
      var a := Look(started.s, key);
      Acquired(a.s, started.lines + a.lines, a.client)
    else Look(before, key)
  }

  predicate IsRemoteFailure(kind: string) {
    kind in {"Authentication", "Authorization", "RateLimited", "Network", "Timeout", "BackendUnavailable"}
  }

  /** The line for a remote failure names the key's source or the endpoint, from what the start resolved. */
  function RemoteLine(kind: string, r: Option<Resolved>): string {
    RemoteText(
      kind,
      if r.Some? && r.value.keySource != "" && r.value.keySource != "none" then r.value.keySource else ENV_KEY,
      if r.Some? && r.value.host.Some? then "fw-server at " + r.value.host.value else "fw-server",
      if r.Some? && r.value.urlSource.Some? then r.value.urlSource.value else ENV_URL)
  }

  function RemoteText(kind: string, source: string, server: string, endpoint: string): string {
    if kind == "Authentication" then
      "[fireweave] " + server + " rejected the key from " + source
      + " (401, Authentication), so every read serves its default. Check that " + source
      + " holds this project's key (project-api-key_\U{2026}) and that it has not been revoked."
    else if kind == "Authorization" then
      "[fireweave] " + server + " refused the key from " + source
      + " (403, Authorization), so every read serves its default. Check that the key belongs to this project."
    else if kind == "RateLimited" then
      "[fireweave] " + server + " is rate-limiting the key from " + source
      + " (429, RateLimited); reads serve their defaults until it recovers."
    else
      "[fireweave] Could not reach " + server + " (" + kind
      + "); reads serve their defaults until it is reachable. The endpoint comes from " + endpoint + "."
  }

  function Observe(s: Fields, kind: string): Warned {
    if !IsRemoteFailure(kind) then Warned(s, [])
    else
      Warned(s.(lastErrorKind := Some(kind), remoteWarned := s.remoteWarned + {kind}),
             if kind in s.remoteWarned then [] else [Redact(RemoteLine(kind, s.resolved))])
  }

  /** What `status` reports: everything about the start but the key. */
  datatype Status = Status(state: State, mode: Option<Mode>, modeSource: Option<string>, host: Option<string>,
                           endpointSource: Option<string>, keySource: Option<string>, environment: Option<string>,
                           controlPointCount: nat, error: Option<string>, lastErrorKind: Option<string>)

  function StatusOf(s: Fields): Status {
    var error := if s.err.Some? then Some(s.err.value.message) else None;
    match s.resolved
    case None => Status(s.state, None, None, None, None, None, None, 0, error, s.lastErrorKind)
    case Some(r) =>
      Status(s.state, Some(r.mode), Some(r.modeSource), r.host, r.urlSource, Some(r.keySource), r.environment,
             |r.controlPoints|, error, s.lastErrorKind)
  }

  function Stop(s: Fields): Fields { s.(client := None, state := Shutdown, implicitTried := true) }

  function HandOut(s: Fields, derived: string, randomLine: Option<string>): (Warned, string) {
    if s.instanceKey.Some? then (Warned(s, []), s.instanceKey.value)
    else
      var key := if s.instanceOption.Some? then s.instanceOption.value else derived;
      var w := if s.instanceOption.None? && randomLine.Some? then WarnOnce(s, randomLine.value) else Warned(s, []);
      (w.(s := w.s.(instanceKey := Some(key))), key)
  }

  // ---- the code ----

  class Singleton {
    var state: State
    var implicit: bool
    var implicitTried: bool
    var resolved: Option<Resolved>
    var sig: Option<Structural>
    var client: Option<Client>
    var err: Option<Error>
    var instanceOption: Option<string>
    var instanceKey: Option<string>
    var log: Option<nat>
    var warned: set<string>
    var remoteWarned: set<string>
    var lastErrorKind: Option<string>

    function Now(): Fields
      reads this
    {
      Fields(state, implicit, implicitTried, resolved, sig, client, err, instanceOption, instanceKey, log,
             warned, remoteWarned, lastErrorKind)
    }

    constructor ()
      ensures Now() == NEW
    {
      state, implicit, implicitTried, resolved, sig, client := Unstarted, false, false, None, None, None;
      err, instanceOption, instanceKey, log := None, None, None, None;
      warned, remoteWarned, lastErrorKind := {}, {}, None;
    }

    method WarnOnceLocked(line: string) returns (lines: seq<string>)
      modifies this`warned
      ensures Warned(Now(), lines) == WarnOnce(old(Now()), line)
    {
      if line in warned { return []; }
      warned := warned + {line};
      lines := [line];
    }

    method WarnAll(texts: seq<string>) returns (lines: seq<string>)
      modifies this`warned
      ensures Warned(Now(), lines) == WarnEach(old(Now()), texts)
    {
      hide WarnEach, WarnOnce;
      lines := [];
      for i := 0 to |texts|
        invariant WarnEach(old(Now()), texts).s == WarnEach(Now(), texts[i..]).s
        invariant WarnEach(old(Now()), texts).lines == lines + WarnEach(Now(), texts[i..]).lines
      {
        WarnEachStep(Now(), texts, i);
        var line := WarnOnceLocked(texts[i]);
        lines := lines + line;
      }
      WarnNothing(Now(), texts);
      assert lines + [] == lines;
    }

    method FreshRun()
      modifies this
      ensures Now() == Fresh(old(Now()))
    {
      state, implicit, implicitTried := Unstarted, false, false;
      resolved, sig, client, err, lastErrorKind := None, None, None, None, None;
    }

    method FailWith(e: Error)
      modifies this
      ensures Now() == Fail(old(Now()), e)
    {
      state, err, implicitTried := Failed, Some(e), true;
    }

    method InstallClient(r: Resolved, id: Option<string>, implicitStart: bool, built: Client)
      modifies this
      ensures Now() == Install(old(Now()), r, id, implicitStart, built)
    {
      if id.Some? { instanceOption := id; }
      state, implicit, implicitTried := Ready, implicitStart, true;
      resolved, sig, client, err := Some(r), Some(RustSignature(r, id)), Some(built), None;
    }

    method Start(a: Attempt, implicitStart: bool, build: Build, built: Client)
      returns (lines: seq<string>, result: Option<Error>)
      modifies this
      ensures Outcome(Now(), lines, result) == StartLocked(old(Now()), a, implicitStart, build, built)
    {
      hide Resolve, Begin, Differs, RustSignature, ConfigError, ConflictMessage, Commas, NotStartedLine;
      lines := [];
      if state == Failed || state == Shutdown { FreshRun(); }
      match Resolve(a.options, a.env, build)
      case Err(e) =>
        result := Some(e);
        if state == Ready { return; }
        FailWith(e);
        if implicitStart { lines := WarnOnceLocked(NotStartedLine(e)); }
      case Ok(r) =>
        var id := Trimmed(a.options.instanceId);
        if state == Ready {
          var diff := if sig.Some? then Differs(sig.value, RustSignature(r, id)) else [];
          result := if diff == [] then None else Some(ConfigError(ConflictMessage(implicit, Commas(diff))));
          return;
        }
        lines, result := BeginRun(a, r, implicitStart, built);
    }

    method BeginRun(a: Attempt, r: Resolved, implicitStart: bool, built: Client)
      returns (lines: seq<string>, result: Option<Error>)
      modifies this
      ensures Outcome(Now(), lines, result) == Begin(old(Now()), a, r, implicitStart, built)
    {
      hide Trimmed, RustSignature, ConfigError, InitFailedLine, LocalLine, WarnEach, Install, Fail;
      var id := Trimmed(a.options.instanceId);
      if id.Some? && instanceKey.Some? && instanceKey != id { return [], Some(ConfigError(ID_CONFLICT)); }
      if !implicitStart && a.log.Some? { log := a.log; }
      if a.init.Some? {
        var e := a.init.value;
        FailWith(e);
        lines := WarnOnceLocked(InitFailedLine(e));
        return lines, Some(e);
      }
      lines := WarnAll(r.warnings);
      assert lines + [] == lines;
      if r.mode == Local { lines := lines + [LocalLine(r)]; }
      InstallClient(r, id, implicitStart, built);
      result := None;
    }

    method AcquireLocked(key: Option<string>, env: Environment, init: Option<Error>, build: Build, built: Client)
      returns (lines: seq<string>, result: Result<Client>)
      modifies this
      ensures Acquired(Now(), lines, result) == Acquire(old(Now()), key, env, init, build, built)
    {
      hide StartLocked, MissingLine;
      lines := [];
      if state == Unstarted && !implicitTried {
        var startError;
        lines, startError := Start(Attempt(DEFAULTS, None, env, init), true, build, built);
      }
      assert lines + [] == lines;
      match state
      case Ready =>
        if key.Some? && resolved.Some? && resolved.value.mode == Local && key.value !in resolved.value.controlPoints {
          var more := WarnOnceLocked(MissingLine(key.value));
          lines := lines + more;
        }
        result := if client.Some? then Ok(client.value) else Err(Plain("NotReady"));
      case Shutdown => result := Err(Plain("AlreadyClosed"));
      case _ => result := Err(if err.Some? then err.value else NOT_STARTED);
    }

    method ObserveRemote(kind: string) returns (lines: seq<string>)
      modifies this
      ensures Warned(Now(), lines) == Observe(old(Now()), kind)
    {
      hide RemoteLine, Redact, IsRemoteFailure;
      if !IsRemoteFailure(kind) { return []; }
      lastErrorKind := Some(kind);
      lines := [];
      if kind !in remoteWarned {
        lines := [Redact(RemoteLine(kind, resolved))];
      }
      remoteWarned := remoteWarned + {kind};
    }

    method ShutdownLocked() returns (closes: Option<Client>)
      modifies this
      ensures Now() == Stop(old(Now())) && closes == old(client)
    {
      closes := client;
      client, state, implicitTried := None, Shutdown, true;
    }
  }
}
