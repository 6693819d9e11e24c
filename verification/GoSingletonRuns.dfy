/** What every run of the Go singleton keeps, with reads split into acquire,
    evaluate and observe, each free to interleave with everything else. */
module GoSingletonRuns {
  import opened Optional
  import opened GoSingleton

  /** A read or registration under way. */
  datatype Call = Holding(client: Client) | Ended(client: Client, error: Option<Error>) | Over

  /** The fields, the calls under way, and the history: clients built, failed calls, the client of the run
      the fields describe, lines logged, keys handed out. */
  datatype World = World(
    s: Fields, calls: seq<Call>, built: nat, failed: set<(Client, Kind)>, runClient: Option<Client>,
    log: seq<Line>, handed: seq<string>)

  const START := World(UNSTARTED, [], 0, {}, None, [], [])

  datatype Event =
    | Start(a: Attempt)
    | Acquire(key: string, isRead: bool, env: Attempt)
    | Evaluate(call: nat, error: Option<Error>)
    | Observe(call: nat)
    | Shutdown
    | InstanceKey(derived: string)

  predicate Enabled(w: World, e: Event) {
    match e
    case Start(_) => true
    case Acquire(_, _, env) => FromEnvironment(env)
    case Evaluate(i, _) => i < |w.calls| && w.calls[i].Holding?
    case Observe(i) => i < |w.calls| && w.calls[i].Ended?
    case Shutdown => true
    case InstanceKey(_) => true
  }

  /** The run described changes when a start begins a fresh one or installs a client. */
  function After(w: World, s: Fields, lines: seq<Line>): World {
    w.(s := s, log := w.log + lines,
       runClient := if s.client.Some? then s.client else if s.resolved.None? then None else w.runClient,
       built := if s.client == Some(w.built) then w.built + 1 else w.built)
  }

  function Next(w: World, e: Event): World
    requires Enabled(w, e)
  {
    match e
    case Start(a) =>
      var (s, lines, _) := StartLocked(w.s, a, false, w.built);
      After(w, s, lines)
    case Acquire(key, isRead, env) =>
      var (s, lines, got) := GoSingleton.Acquire(w.s, key, isRead, env, w.built);
      var w' := After(w, s, lines);
      if got.Got? then w'.(calls := w'.calls + [Holding(got.client)]) else w'
    case Evaluate(i, error) =>
      w.(calls := w.calls[i := Ended(w.calls[i].client, error)],
         failed := if error.Some? then w.failed + {(w.calls[i].client, error.value.kind)} else w.failed)
    case Observe(i) =>
      var call := w.calls[i];
      if call.error.None? then w.(calls := w.calls[i := Over])
      else
        var (s, lines) := GoSingleton.Observe(w.s, call.client, call.error.value.kind);
        w.(calls := w.calls[i := Over], s := s, log := w.log + lines)
    case Shutdown => w.(s := Stop(w.s))
    case InstanceKey(derived) =>
      var (s, key) := HandOut(w.s, derived);
      w.(s := s, handed := w.handed + [key])
  }

  predicate Run(w: World, events: seq<Event>, w': World)
    decreases |events|
  {
    if events == [] then w == w' else Enabled(w, events[0]) && Run(Next(w, events[0]), events[1..], w')
  }

  // ---- fields ----

  predicate FieldsInv(s: Fields, built: nat) {
    && (s.state == Ready <==> s.client.Some?)
    && (s.client.Some? ==> s.client.value < built && s.resolved.Some? && s.sig.Some?)
    && (s.state != Unstarted ==> s.implicitTried)
    && (s.state == Unstarted ==> s.resolved.None? && s.lastErrorKind.None?)
    && (s.state == Failed ==> s.err.Some? && s.resolved.None? && s.lastErrorKind.None?)
    && (s.state == Ready && s.sig.value.instanceID != "" ==>
          s.instanceOption == s.sig.value.instanceID
          && (s.instanceKey.Some? ==> s.instanceKey.value == s.sig.value.instanceID))
  }

  lemma {:induction false} WarnEachKeeps(s: Fields, texts: seq<string>)
    ensures var s' := WarnEach(s, texts).0; s' == s.(warned := s'.warned)
    decreases |texts|
  {
    if texts != [] { WarnEachKeeps(WarnOnce(s, texts[0]).0, texts[1..]); }
  }

  lemma BeginKeeps(s: Fields, a: Attempt, r: Resolved, implicit: bool, built: nat)
    requires FieldsInv(s, built) && s.state == Unstarted
    requires a.instanceID != "" && s.instanceKey.Some? ==> s.instanceKey.value == a.instanceID
    ensures var s' := Begin(s, a, r, implicit, built).0;
            && FieldsInv(s', built + 1) && (s'.client == None || s'.client == Some(built))
            && s'.instanceKey == s.instanceKey && s'.signalled == s.signalled && s'.implicitTried
  {
    hide WarnEach, WarnOnce, InitFailedLine, Install;
    var logged := if !implicit && a.log.Some? then s.(logger := a.log) else s;
    match a.init
    case Rejects(e) => WarnOnceKeeps(Fail(logged, e), InitFailedLine(e));
    case Inits =>
      InstallKeeps(logged, a, r, implicit, built);
      WarnEachKeeps(Install(logged, a, r, implicit, built), r.warnings);
  }

  lemma WarnOnceKeeps(s: Fields, text: string)
    ensures var s' := WarnOnce(s, text).0; s' == s.(warned := s'.warned)
  {
  }

  lemma InstallKeeps(s: Fields, a: Attempt, r: Resolved, implicit: bool, built: nat)
    requires FieldsInv(s, built) && s.state == Unstarted
    requires a.instanceID != "" && s.instanceKey.Some? ==> s.instanceKey.value == a.instanceID
    ensures var s' := Install(s, a, r, implicit, built);
            && FieldsInv(s', built + 1) && s'.client == Some(built)
            && s'.instanceKey == s.instanceKey && s'.signalled == s.signalled && s'.implicitTried
  {
  }

  /** A start keeps the fields consistent; it installs the client it built or none. */
  lemma StartKeeps(s: Fields, a: Attempt, implicit: bool, built: nat)
    requires FieldsInv(s, built)
    ensures var s' := StartLocked(s, a, implicit, built).0;
            && FieldsInv(s', built + 1)
            && (s'.client == Some(built) || FieldsInv(s', built))
            && s'.instanceKey == s.instanceKey && s'.signalled == s.signalled
            && (s.state != Ready ==> s'.lastErrorKind == None)
            && (s.state == Unstarted && a.instanceID == "" ==> s'.implicitTried)
            && (s'.client == s.client || s'.client == Some(built) || s'.client == None)
  {
    hide Begin, NotStartedLine, Differs;
    if a.resolution.Resolves? && s.state != Ready {
      var s0 := if s.state == Failed || s.state == State.Shutdown then Fresh(s) else s;
      if !(a.instanceID != "" && s0.instanceKey.Some? && s0.instanceKey.value != a.instanceID) {
        BeginKeeps(s0, a, a.resolution.r, implicit, built);
        BeginNoKind(s0, a, a.resolution.r, implicit, built);
      }
    }
  }

  lemma BeginNoKind(s: Fields, a: Attempt, r: Resolved, implicit: bool, built: nat)
    requires s.lastErrorKind == None && s.state == Unstarted && s.client == None
    ensures var s' := Begin(s, a, r, implicit, built).0;
            s'.lastErrorKind == None && (s'.client == None ==> s'.state == Failed && s'.resolved == s.resolved)
  {
    hide WarnEach, InitFailedLine;
    var logged := if !implicit && a.log.Some? then s.(logger := a.log) else s;
    WarnEachKeeps(Install(logged, a, r, implicit, built), r.warnings);
  }

  /** A Start while Ready changes no field and logs nothing, whether it succeeds or fails. */
  lemma StartWhileReadyChangesNothing(s: Fields, a: Attempt, implicit: bool, newClient: Client)
    requires s.state == Ready
    ensures StartLocked(s, a, implicit, newClient).0 == s && StartLocked(s, a, implicit, newClient).1 == []
    ensures s.sig.Some? && a.resolution.Resolves? ==>
              (StartLocked(s, a, implicit, newClient).2 == None
               <==> s.sig.value == SignatureOf(a.resolution.r, a.instanceID))
  {
  }

  // ---- the log ----

  /** Position-wise: no warning text and no failure kind occurs twice. */
  predicate OnceEach(log: seq<Line>) {
    forall i, j :: 0 <= i < j < |log| && !log[i].Info? ==> log[i] != log[j]
  }

  /** Exactly the texts and kinds marked as logged have been logged. */
  predicate LogInv(s: Fields, log: seq<Line>) {
    && OnceEach(log)
    && (forall i :: 0 <= i < |log| && log[i].Warn? ==> log[i].text in s.warned)
    && (forall i :: 0 <= i < |log| && log[i].Failure? ==> log[i].kind in s.signalled)
  }

  lemma WarnOnceLogs(s: Fields, text: string, log: seq<Line>)
    requires LogInv(s, log)
    ensures var (s', lines) := WarnOnce(s, text); LogInv(s', log + lines)
  {
  }

  lemma {:induction false} WarnEachLogs(s: Fields, texts: seq<string>, log: seq<Line>)
    requires LogInv(s, log)
    ensures var (s', lines) := WarnEach(s, texts); LogInv(s', log + lines)
    decreases |texts|
  {
    hide LogInv;
    if texts == [] {
      assert log + [] == log;
    } else {
      var (s1, lines) := WarnOnce(s, texts[0]);
      WarnOnceLogs(s, texts[0], log);
      WarnEachLogs(s1, texts[1..], log + lines);
      var (s2, more) := WarnEach(s1, texts[1..]);
      assert log + lines + more == log + (lines + more);
    }
  }

  /** The log invariant looks at two fields only. */
  lemma LogInvSame(s: Fields, s': Fields, log: seq<Line>)
    requires LogInv(s, log) && s'.warned == s.warned && s'.signalled == s.signalled
    ensures LogInv(s', log) && LogInv(s', log + []) && forall text :: LogInv(s', log + [Info(text)])
  {
    assert log + [] == log;
    forall text ensures LogInv(s', log + [Info(text)]) { InfoLogs(s', text, log); }
  }

  lemma InfoLogs(s: Fields, text: string, log: seq<Line>)
    requires LogInv(s, log)
    ensures LogInv(s, log + [Info(text)])
  {
  }

  lemma BeginLogs(s: Fields, a: Attempt, r: Resolved, implicit: bool, newClient: Client, log: seq<Line>)
    requires LogInv(s, log)
    ensures var (s', lines, _) := Begin(s, a, r, implicit, newClient); LogInv(s', log + lines)
  {
    hide LogInv, WarnEach, InitFailedLine;
    var logged := if !implicit && a.log.Some? then s.(logger := a.log) else s;
    match a.init
    case Rejects(e) =>
      LogInvSame(s, Fail(logged, e), log);
      WarnOnceLogs(Fail(logged, e), InitFailedLine(e), log);
    case Inits =>
      var started := Install(logged, a, r, implicit, newClient);
      LogInvSame(s, started, log);
      WarnEachLogs(started, r.warnings, log);
      var (s1, lines) := WarnEach(started, r.warnings);
      LogInvSame(s1, s1, log + lines);
      assert log + (lines + [Info(r.localLine)]) == log + lines + [Info(r.localLine)];
      assert lines + [] == lines;
  }

  lemma StartLogs(before: Fields, a: Attempt, implicit: bool, newClient: Client, log: seq<Line>)
    requires LogInv(before, log)
    ensures var (s', lines, _) := StartLocked(before, a, implicit, newClient); LogInv(s', log + lines)
  {
    hide LogInv, Begin, Differs, NotStartedLine;
    var s := if before.state == Failed || before.state == State.Shutdown then Fresh(before) else before;
    LogInvSame(before, s, log);
    match a.resolution
    case Refused(e) =>
      LogInvSame(s, Fail(s, e), log);
      WarnOnceLogs(Fail(s, e), NotStartedLine(e), log);
    case Resolves(r) => BeginLogs(s, a, r, implicit, newClient, log);
  }

  lemma AcquireLogs(before: Fields, key: string, isRead: bool, env: Attempt, newClient: Client, log: seq<Line>)
    requires LogInv(before, log)
    ensures var (s', lines, _) := GoSingleton.Acquire(before, key, isRead, env, newClient); LogInv(s', log + lines)
  {
    hide LogInv, StartLocked, MissingLine;
    StartLogs(before, env, true, newClient, log);
    LogInvSame(before, before, log);
    var (s, lines) := if StartsImplicitly(before) then
                        var (s1, l1, _) := StartLocked(before, env, true, newClient);
                        (s1, l1)
                      else (before, []);
    WarnOnceLogs(s, MissingLine(key), log + lines);
    assert log + lines + WarnOnce(s, MissingLine(key)).1 == log + (lines + WarnOnce(s, MissingLine(key)).1);
  }

  // ---- runs ----

  predicate CallsInv(w: World) {
    forall i :: 0 <= i < |w.calls| ==>
      match w.calls[i]
      case Holding(c) => c < w.built
      case Ended(c, error) => c < w.built && (error.Some? ==> (c, error.value.kind) in w.failed)
      case Over => true
  }

  /** `lastErrorKind` is a remote failure that a call on the run's own client ended with. */
  predicate KindInv(w: World) {
    && (w.s.client.Some? ==> w.runClient == w.s.client)
    && (w.s.resolved.None? ==> w.s.lastErrorKind == None)
    && (w.s.lastErrorKind.Some? ==>
          w.runClient.Some? && (w.runClient.value, w.s.lastErrorKind.value) in w.failed
          && IsRemoteFailure(w.s.lastErrorKind.value))
  }

  predicate KeyInv(w: World) {
    forall i :: 0 <= i < |w.handed| ==> w.s.instanceKey == Some(w.handed[i])
  }

  predicate Inv(w: World) {
    FieldsInv(w.s, w.built) && LogInv(w.s, w.log) && CallsInv(w) && KindInv(w) && KeyInv(w)
  }

  lemma AfterStartKeeps(w: World, a: Attempt, implicit: bool)
    requires Inv(w)
    ensures var (s, lines, _) := StartLocked(w.s, a, implicit, w.built); Inv(After(w, s, lines))
  {
    hide StartLocked, LogInv;
    StartKeeps(w.s, a, implicit, w.built);
    StartLogs(w.s, a, implicit, w.built, w.log);
    if w.s.state == Ready { StartWhileReadyChangesNothing(w.s, a, implicit, w.built); }
  }

  /** A read that finds nothing to start only looks, and perhaps warns. */
  lemma AcquireOnlyLooks(s: Fields, key: string, isRead: bool, env: Attempt, newClient: Client)
    requires !StartsImplicitly(s)
    ensures var (s', lines, got) := GoSingleton.Acquire(s, key, isRead, env, newClient);
            s' == s.(warned := s'.warned)
  {
    hide MissingLine;
  }

  lemma AcquireAfterStart(s: Fields, key: string, isRead: bool, env: Attempt, newClient: Client)
    requires StartsImplicitly(s)
    ensures var s1 := StartLocked(s, env, true, newClient).0;
            var s' := GoSingleton.Acquire(s, key, isRead, env, newClient).0;
            s' == s1.(warned := s'.warned)
  {
    hide StartLocked, MissingLine;
  }

  /** A read gets the client exactly when the singleton is Ready, else the error its state calls for. */
  lemma AcquireOutcome(s: Fields, key: string, isRead: bool, env: Attempt, built: nat)
    requires FieldsInv(s, built) && FromEnvironment(env)
    ensures var (s', _, got) := GoSingleton.Acquire(s, key, isRead, env, built);
            && (got.Got? <==> s'.state == Ready)
            && (got.Got? ==> s'.client == Some(got.client))
            && (s'.state == State.Shutdown ==> got == Denied(Error(AlreadyClosed, "")))
            && (s'.state == Failed ==> s'.err.Some? && got == Denied(s'.err.value))
            && s'.implicitTried
  {
    hide StartLocked, MissingLine;
    if StartsImplicitly(s) { StartKeeps(s, env, true, built); }
  }

  lemma AcquireKeeps(w: World, key: string, isRead: bool, env: Attempt)
    requires Inv(w) && FromEnvironment(env)
    ensures Inv(Next(w, Acquire(key, isRead, env)))
  {
    hide StartLocked, LogInv, MissingLine, GoSingleton.Acquire;
    AcquireLogs(w.s, key, isRead, env, w.built, w.log);
    AcquireOutcome(w.s, key, isRead, env, w.built);
    if StartsImplicitly(w.s) {
      StartKeeps(w.s, env, true, w.built);
      AcquireAfterStart(w.s, key, isRead, env, w.built);
    } else {
      AcquireOnlyLooks(w.s, key, isRead, env, w.built);
    }
  }

  lemma ObserveKeeps(w: World, i: nat)
    requires Inv(w) && Enabled(w, Observe(i))
    ensures Inv(Next(w, Observe(i)))
  {
    hide LogInv;
    var call := w.calls[i];
    if call.error.Some? {
      ObserveLogs(w.s, call.client, call.error.value.kind, w.log);
    }
  }

  lemma ObserveLogs(s: Fields, client: Client, k: Kind, log: seq<Line>)
    requires LogInv(s, log)
    ensures var (s', lines) := GoSingleton.Observe(s, client, k); LogInv(s', log + lines)
  {
  }

  lemma StepKeepsInv(w: World, e: Event)
    requires Inv(w) && Enabled(w, e)
    ensures Inv(Next(w, e))
  {
    hide LogInv, StartLocked, GoSingleton.Acquire, GoSingleton.Observe;
    match e
    case Start(a) => AfterStartKeeps(w, a, false);
    case Acquire(key, isRead, env) => AcquireKeeps(w, key, isRead, env);
    case Evaluate(i, error) =>
    case Observe(i) => ObserveKeeps(w, i);
    case Shutdown => LogInvSame(w.s, Stop(w.s), w.log);
    case InstanceKey(derived) => LogInvSame(w.s, HandOut(w.s, derived).0, w.log);
  }

  lemma {:induction false} RunKeepsInv(w: World, events: seq<Event>, w': World)
    requires Inv(w) && Run(w, events, w')
    ensures Inv(w')
    decreases |events|
  {
    hide Inv;
    if events != [] {
      StepKeepsInv(w, events[0]);
      RunKeepsInv(Next(w, events[0]), events[1..], w');
    }
  }

  /** In every run: Ready iff a client is installed; the last remote failure shown is one that a call on
      this run's client ended with; no warning text and no failure kind is logged twice; all instance
      keys handed out are the same, and the one the running start asked for. */
  lemma EveryRun(events: seq<Event>, w: World)
    requires Run(START, events, w)
    ensures w.s.state == Ready <==> w.s.client.Some?
    ensures w.s.lastErrorKind.Some? ==>
              w.runClient.Some? && (w.runClient.value, w.s.lastErrorKind.value) in w.failed
              && (w.s.client.Some? ==> w.runClient == w.s.client)
    ensures forall i, j :: 0 <= i < j < |w.log| && !w.log[i].Info? ==> w.log[i] != w.log[j]
    ensures forall i, j :: 0 <= i < j < |w.handed| ==> w.handed[i] == w.handed[j]
    ensures w.s.state == Ready ==> w.s.sig.Some?
    ensures w.s.state == Ready && w.s.sig.value.instanceID != "" ==>
              forall i :: 0 <= i < |w.handed| ==> w.handed[i] == w.s.sig.value.instanceID
  {
    RunKeepsInv(START, events, w);
    forall i, j | 0 <= i < j < |w.handed| ensures w.handed[i] == w.handed[j] {
      assert w.s.instanceKey == Some(w.handed[i]);
    }
  }

  /** In every run, a Start while Ready leaves the whole world as it is and logs nothing; it succeeds exactly
      when it resolves to the signature of the running start. */
  lemma RunningStartStands(events: seq<Event>, w: World, a: Attempt)
    requires Run(START, events, w) && w.s.state == Ready
    ensures Next(w, Start(a)) == w
    ensures StartLocked(w.s, a, false, w.built).2 == None
            <==> a.resolution.Resolves? && w.s.sig == Some(SignatureOf(a.resolution.r, a.instanceID))
  {
    RunKeepsInv(START, events, w);
    hide LogInv, StartLocked;
    StartWhileReadyChangesNothing(w.s, a, false, w.built);
    assert w.log + [] == w.log;
    StartWhileReadySucceeds(w.s, a, w.built);
  }

  lemma StartWhileReadySucceeds(s: Fields, a: Attempt, newClient: Client)
    requires s.state == Ready && s.sig.Some?
    ensures StartLocked(s, a, false, newClient).2 == None
            <==> a.resolution.Resolves? && s.sig == Some(SignatureOf(a.resolution.r, a.instanceID))
  {
  }

  // ---- implicit starts ----

  function ImplicitStarts(w: World, events: seq<Event>): nat
    decreases |events|
  {
    if events == [] || !Enabled(w, events[0]) then 0
    else
      (if events[0].Acquire? && StartsImplicitly(w.s) then 1 else 0) + ImplicitStarts(Next(w, events[0]), events[1..])
  }

  predicate NoExplicitStart(events: seq<Event>) {
    forall i :: 0 <= i < |events| ==> !events[i].Start?
  }

  lemma TriedStays(w: World, e: Event)
    requires Inv(w) && Enabled(w, e) && !e.Start?
    ensures w.s.implicitTried ==> Next(w, e).s.implicitTried
    ensures e.Acquire? ==> Next(w, e).s.implicitTried
  {
    hide LogInv, GoSingleton.Acquire;
    if e.Acquire? {
      AcquireOutcome(w.s, e.key, e.isRead, e.env, w.built);
    }
  }

  /** Between two explicit Starts, successful or not, at most one implicit start happens. */
  lemma {:induction false} OneImplicitStart(w: World, events: seq<Event>, w': World)
    requires Inv(w) && Run(w, events, w') && NoExplicitStart(events)
    ensures ImplicitStarts(w, events) <= if w.s.implicitTried then 0 else 1
    decreases |events|
  {
    hide Inv, Next;
    if events != [] {
      StepKeepsInv(w, events[0]);
      TriedStays(w, events[0]);
      OneImplicitStart(Next(w, events[0]), events[1..], w');
    }
  }

  /** Without an explicit Start a failed singleton stays failed until shut down, and a shut-down one
      stays shut down: reads never bring it back. */
  lemma {:induction false} OnlyStartRevives(w: World, events: seq<Event>, w': World)
    requires Inv(w) && Run(w, events, w') && NoExplicitStart(events)
    requires w.s.state == Failed || w.s.state == State.Shutdown
    ensures w'.s.state == State.Shutdown || (w.s.state == Failed && w'.s.state == Failed && w'.s.err == w.s.err)
    decreases |events|
  {
    hide Inv, Next;
    if events != [] {
      StepKeepsInv(w, events[0]);
      StoppedStays(w, events[0]);
      OnlyStartRevives(Next(w, events[0]), events[1..], w');
    }
  }

  lemma StoppedStays(w: World, e: Event)
    requires Inv(w) && Enabled(w, e) && !e.Start? && (w.s.state == Failed || w.s.state == State.Shutdown)
    ensures var s := Next(w, e).s;
            s.state == State.Shutdown || (w.s.state == Failed && s.state == Failed && s.err == w.s.err)
  {
    hide LogInv, GoSingleton.Acquire;
    if e.Acquire? { AcquireOnlyLooks(w.s, e.key, e.isRead, e.env, w.built); }
  }

  /** A handed-out key never changes, in any continuation. */
  lemma {:induction false} KeyNeverChanges(w: World, events: seq<Event>, w': World)
    requires Inv(w) && Run(w, events, w') && w.s.instanceKey.Some?
    ensures w'.s.instanceKey == w.s.instanceKey
    decreases |events|
  {
    hide Inv, Next;
    if events != [] {
      StepKeepsInv(w, events[0]);
      KeyStays(w, events[0]);
      KeyNeverChanges(Next(w, events[0]), events[1..], w');
    }
  }

  lemma KeyStays(w: World, e: Event)
    requires Inv(w) && Enabled(w, e) && w.s.instanceKey.Some?
    ensures Next(w, e).s.instanceKey == w.s.instanceKey
  {
    hide LogInv, StartLocked, GoSingleton.Acquire, GoSingleton.Observe;
    match e
    case Start(a) => StartKeeps(w.s, a, false, w.built);
    case Acquire(key, isRead, env) =>
      if StartsImplicitly(w.s) {
        StartKeeps(w.s, env, true, w.built);
        AcquireAfterStart(w.s, key, isRead, env, w.built);
      } else {
        AcquireOnlyLooks(w.s, key, isRead, env, w.built);
      }
    case Evaluate(_, _) =>
    case Observe(i) => ObserveKeepsKey(w.s, w.calls[i]);
    case Shutdown =>
    case InstanceKey(_) =>
  }

  lemma ObserveKeepsKey(s: Fields, call: Call)
    requires call.Ended?
    ensures forall k :: GoSingleton.Observe(s, call.client, k).0.instanceKey == s.instanceKey
  {
  }
}
