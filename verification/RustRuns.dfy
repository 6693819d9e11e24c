/** What every run of the Rust start singleton keeps: starts, reads, observed failures,
    instance keys and shutdowns in any order. */
module RustRuns {
  import opened Optional
  import opened Redaction
  import opened RustResolve
  import opened RustStart
  import opened Signatures

  datatype Event =
    | Start(a: Attempt)
    | Read(key: Option<string>, env: Environment, init: Option<Error>)
    | RemoteFailure(kind: string)
    | InstanceKey(derived: string, randomLine: Option<string>)
    | ShutDown

  /** Everything an application can observe of one step: lines logged, what was returned, the status. */
  datatype Seen = Seen(lines: seq<string>, error: Option<Error>, client: Option<Client>, key: Option<string>, status: Status)

  datatype Stepped = Stepped(s: Fields, seen: Seen)

  function Step(s: Fields, e: Event, build: Build, built: Client): Stepped {
    match e
    case Start(a) =>
      var o := StartLocked(s, a, false, build, built);
      Stepped(o.s, Seen(o.lines, o.result, None, None, StatusOf(o.s)))
    case Read(key, env, init) =>
      var a := Acquire(s, key, env, init, build, built);
      Stepped(a.s, Seen(a.lines, if a.client.Err? then Some(a.client.error) else None,
                        if a.client.Ok? then Some(a.client.value) else None, None, StatusOf(a.s)))
    case RemoteFailure(kind) =>
      var w := Observe(s, kind);
      Stepped(w.s, Seen(w.lines, None, None, None, StatusOf(w.s)))
    case InstanceKey(derived, randomLine) =>
      var (w, key) := HandOut(s, derived, randomLine);
      Stepped(w.s, Seen(w.lines, None, None, Some(key), StatusOf(w.s)))
    case ShutDown => Stepped(Stop(s), Seen([], None, None, None, StatusOf(Stop(s))))
  }

  /** Client `n` is the one the `n`-th step of the process may build. */
  function Observed(s: Fields, events: seq<Event>, build: Build, n: Client): seq<Seen>
    decreases |events|
  {
    if events == [] then []
    else
      var step := Step(s, events[0], build, n);
      [step.seen] + Observed(step.s, events[1..], build, n + 1)
  }

  /** The fields after a run. Client `n` is the one its first step may build. */
  function After(s: Fields, events: seq<Event>, build: Build, n: Client): Fields
    decreases |events|
  {
    if events == [] then s else After(Step(s, events[0], build, n).s, events[1..], build, n + 1)
  }

  // ---- the invariant ----

  /** How the state and the other fields belong together. Clients in the fields were built before `n`. */
  predicate Consistent(s: Fields, n: Client) {
    && (s.state == Ready <==> s.client.Some?)
    && (s.client.Some? ==> s.client.value < n)
    && (s.state == Ready ==> s.resolved.Some? && s.sig.Some? && s.err.None?)
    && (s.state == Failed ==> s.err.Some?)
    && (s.state == Unstarted <==> !s.implicitTried)
    && (s.state == Unstarted ==> s.resolved.None? && s.sig.None? && s.err.None?)
  }

  lemma {:induction false} WarnEachKeeps(s: Fields, lines: seq<string>)
    ensures var s' := WarnEach(s, lines).s; s' == s.(warned := s'.warned)
    decreases |lines|
  {
    if lines != [] { WarnEachKeeps(WarnOnce(s, lines[0]).s, lines[1..]); }
  }

  /** A start that begins installs the client it built, or fails with the error it returns; a conflicting
      instance id changes nothing. */
  lemma BeginKeeps(s: Fields, a: Attempt, r: Resolved, implicit: bool, n: Client)
    requires Consistent(s, n) && s.state == Unstarted
    ensures var o := Begin(s, a, r, implicit, n);
            && Consistent(o.s, n + 1) && (o.s.client == None || o.s.client == Some(n))
            && (o.s.state == Ready <==> o.result == None)
            && (o.s.state == Failed ==> o.s.err == o.result)
            && (Trimmed(a.options.instanceId).None? ==> o.s.state != Unstarted)
            && o.s.state != Shutdown
  {
    hide WarnEach, InitFailedLine, Trimmed, LocalLine, ConfigError, RustSignature;
    var logged := if !implicit && a.log.Some? then s.(log := a.log) else s;
    WarnEachKeeps(logged, r.warnings);
  }

  /** What a start leaves behind. */
  lemma StartKeeps(s: Fields, a: Attempt, implicit: bool, build: Build, n: Client)
    requires Consistent(s, n)
    ensures var o := StartLocked(s, a, implicit, build, n);
            && Consistent(o.s, n + 1)
            && (s.state == Ready ==> o.s == s && o.lines == [])
            && (s.state != Ready ==> (o.s.state == Ready <==> o.result == None))
            && (s.state != Ready ==> o.s.client == None || o.s.client == Some(n))
            && (o.s.state == Failed ==> o.s.err == o.result)
            && (s.state != Ready && Trimmed(a.options.instanceId).None? ==> o.s.state == Ready || o.s.state == Failed)
            && o.s.state != Shutdown
  {
    hide Resolve, Begin, Differs, RustSignature, ConfigError, ConflictMessage, Commas, NotStartedLine, Trimmed;
    var s1 := if s.state == Failed || s.state == Shutdown then Fresh(s) else s;
    match Resolve(a.options, a.env, build)
    case Err(e) =>
    case Ok(r) => if s1.state != Ready { BeginKeeps(s1, a, r, implicit, n); }
  }

  lemma DefaultsNameNoId()
    ensures Trimmed(DEFAULTS.instanceId).None?
  {
  }

  /** A read is given the running client exactly when the singleton is Ready behind it, and otherwise the
      error of the start that failed, or AlreadyClosed; never that nothing was started. */
  lemma AcquireKeeps(s: Fields, key: Option<string>, env: Environment, init: Option<Error>, build: Build, n: Client)
    requires Consistent(s, n)
    ensures var a := Acquire(s, key, env, init, build, n);
            && Consistent(a.s, n + 1) && a.s.state != Unstarted
            && (a.s.state == Ready ==> a.client == Ok(a.s.client.value))
            && (a.s.state == Failed ==> a.client == Err(a.s.err.value))
            && (a.s.state == Shutdown ==> a.client == Err(Plain("AlreadyClosed")))
            && (s.state != Unstarted ==> a.s == s.(warned := a.s.warned))
            && (s.state == Unstarted ==> a.s.client == None || a.s.client == Some(n))
            && (s.state == Unstarted ==>
                  var start := StartLocked(s, Attempt(DEFAULTS, None, env, init), true, build, n);
                  && a.s == start.s.(warned := a.s.warned) && (start.s.state == Failed ==> start.s.err == start.result))
  {
    hide StartLocked, MissingLine;
    StartKeeps(s, Attempt(DEFAULTS, None, env, init), true, build, n);
    DefaultsNameNoId();
  }

  lemma StepKeeps(s: Fields, e: Event, build: Build, n: Client)
    requires Consistent(s, n)
    ensures Consistent(Step(s, e, build, n).s, n + 1)
  {
    hide StartLocked, Acquire, RemoteLine, Redact, WarnOnce;
    match e
    case Start(a) => StartKeeps(s, a, false, build, n);
    case Read(key, env, init) => AcquireKeeps(s, key, env, init, build, n);
    case RemoteFailure(kind) =>
    case InstanceKey(derived, randomLine) => if randomLine.Some? { WarnKeeps(s, randomLine.value); }
    case ShutDown =>
  }

  lemma WarnKeeps(s: Fields, line: string)
    ensures var s' := WarnOnce(s, line).s; s' == s.(warned := s'.warned)
  {
  }

  lemma {:induction false} RunKeeps(s: Fields, events: seq<Event>, build: Build, n: Client)
    requires Consistent(s, n)
    ensures Consistent(After(s, events, build, n), n + |events|)
    decreases |events|
  {
    hide Consistent, Step;
    if events != [] {
      StepKeeps(s, events[0], build, n);
      RunKeeps(Step(s, events[0], build, n).s, events[1..], build, n + 1);
    }
  }

  /** In every run: Ready exactly when a client is installed, which some earlier step built; Failed only with
      the error of the failure; untouched exactly when the next read would start implicitly. */
  lemma EveryRun(events: seq<Event>, build: Build)
    ensures var s := After(NEW, events, build, 0);
            && (s.state == Ready <==> s.client.Some?) && (s.client.Some? ==> s.client.value < |events|)
            && (s.state == Ready ==> s.resolved.Some? && s.sig.Some? && s.err.None?)
            && (s.state == Failed ==> s.err.Some?)
            && (s.state == Unstarted <==> StartsImplicitly(s))
            && (s.state == Unstarted ==> s.resolved.None? && s.sig.None? && s.err.None?)
  {
    RunKeeps(NEW, events, build, 0);
  }

  /** In every run, a start while Ready leaves everything as it is, and succeeds exactly when it resolves to
      the signature of the running start. */
  lemma RunningStartStands(events: seq<Event>, build: Build, a: Attempt)
    requires After(NEW, events, build, 0).state == Ready
    ensures var s := After(NEW, events, build, 0);
            var o := StartLocked(s, a, false, build, |events|);
            && o.s == s && o.lines == []
            && (o.result == None <==>
                  && Resolve(a.options, a.env, build).Ok?
                  && s.sig == Some(RustSignature(Resolve(a.options, a.env, build).value, Trimmed(a.options.instanceId))))
  {
    hide Resolve, RustSignature, ConfigError, ConflictMessage, Commas, Trimmed, After;
    RunKeeps(NEW, events, build, 0);
  }

  /** In every run, a read behind which the singleton is not Ready is told why: the error of the start that
      failed, or AlreadyClosed after a shutdown. */
  lemma ReadIsTold(events: seq<Event>, build: Build, key: Option<string>, env: Environment, init: Option<Error>)
    ensures var a := Acquire(After(NEW, events, build, 0), key, env, init, build, |events|);
            match a.s.state
            case Ready => a.s.client.Some? && a.client == Ok(a.s.client.value)
            case Failed => a.s.err.Some? && a.client == Err(a.s.err.value)
            case Shutdown => a.client == Err(Plain("AlreadyClosed"))
            case Unstarted => false
  {
    hide Acquire, After;
    RunKeeps(NEW, events, build, 0);
    AcquireKeeps(After(NEW, events, build, 0), key, env, init, build, |events|);
  }

  // ---- restarts ----

  predicate NoStart(events: seq<Event>) { forall i :: 0 <= i < |events| ==> !events[i].Start? }

  lemma StoppedStays(s: Fields, e: Event, build: Build, n: Client)
    requires Consistent(s, n) && !e.Start? && (s.state == Failed || s.state == Shutdown)
    ensures var s' := Step(s, e, build, n).s;
            s'.state == Shutdown || (s.state == Failed && s'.state == Failed && s'.err == s.err)
  {
    hide StartLocked, Acquire, RemoteLine, Redact, WarnOnce;
    match e
    case Read(key, env, init) => AcquireKeeps(s, key, env, init, build, n);
    case RemoteFailure(kind) =>
    case InstanceKey(derived, randomLine) => if randomLine.Some? { WarnKeeps(s, randomLine.value); }
    case ShutDown =>
  }

  /** Reads never bring a failed or shut-down singleton back; only an explicit start does. */
  lemma {:induction false} OnlyStartRevives(s: Fields, events: seq<Event>, build: Build, n: Client)
    requires Consistent(s, n) && NoStart(events) && (s.state == Failed || s.state == Shutdown)
    ensures var s' := After(s, events, build, n);
            s'.state == Shutdown || (s.state == Failed && s'.state == Failed && s'.err == s.err)
    decreases |events|
  {
    hide Consistent, Step;
    if events != [] {
      StoppedStays(s, events[0], build, n);
      StepKeeps(s, events[0], build, n);
      OnlyStartRevives(Step(s, events[0], build, n).s, events[1..], build, n + 1);
    }
  }
}
