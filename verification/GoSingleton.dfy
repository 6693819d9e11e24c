/** The process-wide start of the Go SDK: the singleton's fields, the critical
    sections that change them, and runs in which reads are split where the lock
    is released. */
module GoSingleton {
  import opened Optional

  datatype Kind =
    | Authentication | Authorization | RateLimited | Network | Timeout | BackendUnavailable
    | Configuration | AlreadyClosed | NotReady | OtherKind(name: string)

  /** Failures of fw-server itself, the ones that get a line of their own. */
  predicate IsRemoteFailure(k: Kind) {
    k in {Authentication, Authorization, RateLimited, Network, Timeout, BackendUnavailable}
  }

  datatype Error = Error(kind: Kind, message: string)

  datatype Mode = Local | Remote

  datatype Resolved = Resolved(mode: Mode, url: string, key: string, allowedHosts: seq<string>,
                               controlPoints: map<string, bool>, warnings: seq<string>, localLine: string)

  datatype Signature = Signature(mode: Mode, url: string, key: string, allowedHosts: seq<string>,
                                 instanceID: string, controlPoints: map<string, bool>)

  /** Local control points count in local mode only. */
  function SignatureOf(r: Resolved, instanceID: string): Signature {
    Signature(r.mode, r.url, r.key, r.allowedHosts, instanceID,
              if r.mode == Local then r.controlPoints else map[])
  }

  /** The names of the fields that differ. */
  function Differs(a: Signature, b: Signature): (r: seq<string>)
    ensures r == [] <==> a == b
  {
    (if a.mode != b.mode then ["mode"] else [])
    + (if a.url != b.url then ["url"] else [])
    + (if a.key != b.key then ["key"] else [])
    + (if a.allowedHosts != b.allowedHosts then ["allowed hosts"] else [])
    + (if a.instanceID != b.instanceID then ["instance id"] else [])
    + (if a.controlPoints != b.controlPoints then ["controlPoints"] else [])
  }

  datatype State = Unstarted | Ready | Failed | Shutdown

  type Client = nat

  datatype Line = Warn(text: string) | Failure(kind: Kind) | Info(text: string)

  /** The fields guarded by the singleton's mutex. */
  datatype Fields = Fields(
    state: State, implicit: bool, implicitTried: bool, resolved: Option<Resolved>, sig: Option<Signature>,
    client: Option<Client>, err: Option<Error>,
    instanceOption: string, instanceKey: Option<string>, logger: Option<nat>,
    warned: set<string>, lastErrorKind: Option<Kind>, signalled: set<Kind>)

  const UNSTARTED := Fields(Unstarted, false, false, None, None, None, None, "", None, None, {}, None, {})

  datatype Resolution = Resolves(r: Resolved) | Refused(e: Error)

  datatype Init = Inits | Rejects(e: Error)

  /** The options of a Start (instance id trimmed) and what resolving and initializing them give. */
  datatype Attempt = Attempt(instanceID: string, log: Option<nat>, resolution: Resolution, init: Init)

  /** Options{}: what an implicit start passes. */
  predicate FromEnvironment(a: Attempt) { a.instanceID == "" && a.log == None }

  function WarnOnce(s: Fields, text: string): (Fields, seq<Line>) {
    if text in s.warned then (s, []) else (s.(warned := s.warned + {text}), [Warn(text)])
  }

  function WarnEach(s: Fields, texts: seq<string>): (Fields, seq<Line>)
    decreases |texts|
  {
    if texts == [] then (s, [])
    else
      var (s1, lines) := WarnOnce(s, texts[0]);
      var (s2, more) := WarnEach(s1, texts[1..]);
      (s2, lines + more)
  }

  lemma WarnEachStep(s: Fields, texts: seq<string>, i: nat)
    requires i < |texts|
    ensures var (s1, lines) := WarnOnce(s, texts[i]);
            var (s2, more) := WarnEach(s1, texts[i + 1..]);
            WarnEach(s, texts[i..]) == (s2, lines + more)
  {
    hide WarnOnce;
    assert texts[i..][0] == texts[i] && texts[i..][1..] == texts[i + 1..];
  }

  lemma WarnNothing(s: Fields, texts: seq<string>)
    ensures WarnEach(s, texts[|texts|..]) == (s, [])
  {
  }

  function Fresh(s: Fields): Fields {
    s.(state := Unstarted, implicit := false, implicitTried := false, resolved := None, sig := None,
       client := None, err := None, lastErrorKind := None)
  }

  function Fail(s: Fields, e: Error): Fields { s.(state := Failed, err := Some(e), implicitTried := true) }

  const CONFLICT := Error(Configuration, "different configuration")
  const ID_CONFLICT := Error(Configuration, "instance id differs from the key handed out")

  function NotStartedLine(e: Error): string {
    "[fireweave] " + e.message + " (FireWeave was not started; reads serve their defaults.)"
  }

  function InitFailedLine(e: Error): string {
    "[fireweave] start failed: " + e.message + ". Reads serve their defaults."
  }

  function Install(s: Fields, a: Attempt, r: Resolved, implicit: bool, newClient: Client): Fields {
    s.(state := Ready, implicit := implicit, implicitTried := true, resolved := Some(r),
       sig := Some(SignatureOf(r, a.instanceID)), client := Some(newClient), err := None,
       instanceOption := if a.instanceID != "" then a.instanceID else s.instanceOption)
  }

  /** A start that found a configuration to run: build the client and install it, or fail. */
  function Begin(s: Fields, a: Attempt, r: Resolved, implicit: bool, newClient: Client)
    : (Fields, seq<Line>, Option<Error>)
  {
    var logged := if !implicit && a.log.Some? then s.(logger := a.log) else s;
    match a.init
    case Rejects(e) =>
      var (s1, lines) := WarnOnce(Fail(logged, e), InitFailedLine(e));
      (s1, lines, Some(e))
    case Inits =>
      var (s1, lines) := WarnEach(Install(logged, a, r, implicit, newClient), r.warnings);
      (s1, lines + (if r.mode == Local then [Info(r.localLine)] else []), None)
  }

  /** The body of Start: new fields, lines to log, error. `newClient` is the client a successful Init builds. */
  function StartLocked(before: Fields, a: Attempt, implicit: bool, newClient: Client)
    : (Fields, seq<Line>, Option<Error>)
  {
    var s := if before.state == Failed || before.state == Shutdown then Fresh(before) else before;
    match a.resolution
    case Refused(e) =>
      if s.state == Ready then (s, [], Some(e))
      else if implicit then
        var (s1, lines) := WarnOnce(Fail(s, e), NotStartedLine(e));
        (s1, lines, Some(e))
      else (Fail(s, e), [], Some(e))
    case Resolves(r) =>
      if s.state == Ready then
        var same := s.sig.Some? && Differs(s.sig.value, SignatureOf(r, a.instanceID)) == [];
        (s, [], if same then None else Some(CONFLICT))
      else if a.instanceID != "" && s.instanceKey.Some? && s.instanceKey.value != a.instanceID then
        (s, [], Some(ID_CONFLICT))
      else Begin(s, a, r, implicit, newClient)
  }

  predicate StartsImplicitly(s: Fields) { s.state == Unstarted && !s.implicitTried }

  function MissingLine(key: string): string { "[fireweave:local] " + key + " is not in your control points" }

  /** What a read gets: a client, or the error it reports with the caller's default. */
  datatype Acquired = Got(client: Client) | Denied(e: Error)

  function Acquire(before: Fields, key: string, isRead: bool, env: Attempt, newClient: Client)
    : (Fields, seq<Line>, Acquired)
  {
    var (s, lines) := if StartsImplicitly(before) then
                        var (s1, l1, _) := StartLocked(before, env, true, newClient);
                        (s1, l1)
                      else (before, []);
    match s.state
    case Ready =>
      var got := if s.client.Some? then Got(s.client.value) else Denied(Error(NotReady, ""));
      if isRead && s.resolved.Some? && s.resolved.value.mode == Local && key !in s.resolved.value.controlPoints then
        var (s1, more) := WarnOnce(s, MissingLine(key));
        (s1, lines + more, got)
      else (s, lines, got)
    case Shutdown => (s, lines, Denied(Error(AlreadyClosed, "")))
    case _ => (s, lines, Denied(if s.err.Some? then s.err.value else Error(NotReady, "FireWeave was not started.")))
  }

  /** A call through `client` ended with an error of kind `k`. */
  function Observe(s: Fields, client: Client, k: Kind): (Fields, seq<Line>) {
    if s.client != Some(client) || s.resolved.None? || s.resolved.value.mode != Remote || !IsRemoteFailure(k) then (s, [])
    else
      (s.(lastErrorKind := Some(k), signalled := s.signalled + {k}), if k in s.signalled then [] else [Failure(k)])
  }

  function Stop(s: Fields): Fields { s.(client := None, state := Shutdown, implicitTried := true) }

  /** The option of the last start that passed one, else what environment and host give. */
  function DeriveKey(s: Fields, derived: string): string {
    if s.instanceOption != "" then s.instanceOption else derived
  }

  function HandOut(s: Fields, derived: string): (Fields, string) {
    if s.instanceKey.Some? then (s, s.instanceKey.value)
    else (s.(instanceKey := Some(DeriveKey(s, derived))), DeriveKey(s, derived))
  }

  // ---- the code, critical section by critical section ----

  class Singleton {
    var state: State
    var implicit: bool
    var implicitTried: bool
    var resolved: Option<Resolved>
    var sig: Option<Signature>
    var client: Option<Client>
    var err: Option<Error>
    var instanceOption: string
    var instanceKey: Option<string>
    var logger: Option<nat>
    var warned: set<string>
    var lastErrorKind: Option<Kind>
    var signalled: set<Kind>

    function Now(): Fields
      reads this
    {
      Fields(state, implicit, implicitTried, resolved, sig, client, err, instanceOption, instanceKey, logger,
             warned, lastErrorKind, signalled)
    }

    constructor ()
      ensures Now() == UNSTARTED
    {
      state, implicit, implicitTried, resolved, sig := Unstarted, false, false, None, None;
      client, err, instanceOption, instanceKey, logger := None, None, "", None, None;
      warned, lastErrorKind, signalled := {}, None, {};
    }

    method WarnOnceLocked(text: string) returns (lines: seq<Line>)
      modifies this`warned
      ensures (Now(), lines) == WarnOnce(old(Now()), text)
    {
      if text in warned { return []; }
      warned := warned + {text};
      lines := [Warn(text)];
    }

    method FreshRunLocked()
      modifies `state, `implicit, `implicitTried, `resolved, `sig, `client, `err, `lastErrorKind
      ensures Now() == Fresh(old(Now()))
    {
      state, implicit, implicitTried := Unstarted, false, false;
      resolved, sig, client, err, lastErrorKind := None, None, None, None, None;
    }

    method Start(a: Attempt, implicitStart: bool, newClient: Client) returns (lines: seq<Line>, error: Option<Error>)
      modifies this
      ensures (Now(), lines, error) == StartLocked(old(Now()), a, implicitStart, newClient)
    {
      hide Begin, WarnEach, NotStartedLine, Differs, SignatureOf;
      lines := [];
      if state == Failed || state == Shutdown { FreshRunLocked(); }
      if a.resolution.Refused? {
        var e := a.resolution.e;
        error := Some(e);
        if state == Ready { return; }
        state, err, implicitTried := Failed, Some(e), true;
        if implicitStart { lines := WarnOnceLocked(NotStartedLine(e)); }
        return;
      }
      var r := a.resolution.r;
      if state == Ready {
        var same := sig.Some? && Differs(sig.value, SignatureOf(r, a.instanceID)) == [];
        error := if same then None else Some(CONFLICT);
        return;
      }
      if a.instanceID != "" && instanceKey.Some? && instanceKey.value != a.instanceID {
        return [], Some(ID_CONFLICT);
      }
      lines, error := BeginRun(a, r, implicitStart, newClient);
    }

    method BeginRun(a: Attempt, r: Resolved, implicitStart: bool, newClient: Client)
      returns (lines: seq<Line>, error: Option<Error>)
      modifies this
      ensures (Now(), lines, error) == Begin(old(Now()), a, r, implicitStart, newClient)
    {
      hide WarnEach, InitFailedLine, Install;
      if !implicitStart && a.log.Some? { logger := a.log; }
      if a.init.Rejects? {
        var e := a.init.e;
        state, err, implicitTried := Failed, Some(e), true;
        lines := WarnOnceLocked(InitFailedLine(e));
        return lines, Some(e);
      }
      InstallClient(a, r, implicitStart, newClient);
      lines := WarnAll(r.warnings);
      assert lines + [] == lines;
      if r.mode == Local { lines := lines + [Info(r.localLine)]; }
      error := None;
    }

    method InstallClient(a: Attempt, r: Resolved, implicitStart: bool, newClient: Client)
      modifies `state, `implicit, `implicitTried, `resolved, `sig, `client, `err, `instanceOption
      ensures Now() == Install(old(Now()), a, r, implicitStart, newClient)
    {
      hide SignatureOf;
      if a.instanceID != "" { instanceOption := a.instanceID; }
      resolved, sig, client, err := Some(r), Some(SignatureOf(r, a.instanceID)), Some(newClient), None;
      state, implicit, implicitTried := Ready, implicitStart, true;
    }

    method WarnAll(texts: seq<string>) returns (lines: seq<Line>)
      modifies this`warned
      ensures (Now(), lines) == WarnEach(old(Now()), texts)
    {
      hide WarnEach, WarnOnce;
      lines := [];
      for i := 0 to |texts|
        invariant WarnEach(old(Now()), texts).0 == WarnEach(Now(), texts[i..]).0
        invariant WarnEach(old(Now()), texts).1 == lines + WarnEach(Now(), texts[i..]).1
      {
        WarnEachStep(Now(), texts, i);
        var line := WarnOnceLocked(texts[i]);
        lines := lines + line;
      }
      WarnNothing(Now(), texts);
      assert lines + [] == lines;
    }

    method AcquireLocked(key: string, isRead: bool, env: Attempt, newClient: Client)
      returns (lines: seq<Line>, got: Acquired)
      requires FromEnvironment(env)
      modifies this
      ensures (Now(), lines, got) == Acquire(old(Now()), key, isRead, env, newClient)
    {
      hide StartLocked, MissingLine;
      lines := [];
      if state == Unstarted && !implicitTried {
        var startError;
        lines, startError := Start(env, true, newClient);
      }
      match state {
        case Ready =>
          got := if client.Some? then Got(client.value) else Denied(Error(NotReady, ""));
          if isRead && resolved.Some? && resolved.value.mode == Local && key !in resolved.value.controlPoints {
            var more := WarnOnceLocked(MissingLine(key));
            lines := lines + more;
          }
        case Shutdown => got := Denied(Error(AlreadyClosed, ""));
        case _ => got := Denied(if err.Some? then err.value else Error(NotReady, "FireWeave was not started."));
      }
    }

    method ObserveRemote(from: Client, error: Option<Error>) returns (lines: seq<Line>)
      modifies this
      ensures error.None? ==> Now() == old(Now()) && lines == []
      ensures error.Some? ==> (Now(), lines) == Observe(old(Now()), from, error.value.kind)
    {
      if error.None? { return []; }
      if client != Some(from) || resolved.None? || resolved.value.mode != Remote { return []; }
      var kind := error.value.kind;
      if !IsRemoteFailure(kind) { return []; }
      lastErrorKind := Some(kind);
      lines := [];
      if kind !in signalled {
        lines := [Failure(kind)];
      }
      signalled := signalled + {kind};
    }

    method ShutdownLocked() returns (closes: Option<Client>)
      modifies this
      ensures Now() == Stop(old(Now())) && closes == old(client)
    {
      closes := client;
      client, state, implicitTried := None, Shutdown, true;
    }

    method InstanceKey(derived: string) returns (key: string)
      modifies this
      ensures (Now(), key) == HandOut(old(Now()), derived)
    {
      if instanceKey.None? { instanceKey := Some(DeriveKey(Now(), derived)); }
      key := instanceKey.value;
    }
  }
}
