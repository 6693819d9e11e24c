/** Reads through the permanent Rust client: its runtime validates, its adapter hands the
    read to whatever the latest start built. */
module RustForwarder {
  import opened Optional
  import opened CanonicalJson
  import opened RustResolve
  import RustRuns
  import RustStart

  // ---- contexts ----

  datatype Context = Context(targetingKey: Option<string>, attributes: map<string, Json>)

  const EMPTY := Context(None, map[])

  function Layered(low: Context, high: Option<Context>): Context {
    match high
    case None => low
    case Some(c) =>
      Context(if c.targetingKey.Some? then c.targetingKey else low.targetingKey, low.attributes + c.attributes)
  }

  function MergeFrom(low: Context, layers: seq<Option<Context>>): Context
    decreases |layers|
  {
    if layers == [] then low else MergeFrom(Layered(low, layers[0]), layers[1..])
  }

  /** Later layers win; absent layers do not count. */
  method MergeContexts(layers: seq<Option<Context>>) returns (merged: Context)
    ensures merged == MergeFrom(EMPTY, layers)
  {
    merged := EMPTY;
    for i := 0 to |layers|
      invariant MergeFrom(merged, layers[i..]) == MergeFrom(EMPTY, layers)
    {
      assert layers[i..][0] == layers[i] && layers[i..][1..] == layers[i + 1..];
      if layers[i].Some? {
        var c := layers[i].value;
        if c.targetingKey.Some? { merged := merged.(targetingKey := c.targetingKey); }
        merged := merged.(attributes := merged.attributes + c.attributes);
      }
    }
  }

  // ---- one runtime ----

  datatype State = Uninitialized | Initializing | Ready | Stale | Failed | Fatal | Shutdown

  datatype FlagType = BooleanFlag | TextFlag | NumberFlag | ObjectFlag

  /** What an adapter found. */
  datatype Resolution = Resolution(
    value: Json, variant: Option<string>, enabled: bool, matched: bool, version: Option<string>,
    vendorId: Option<string>, reasonCode: Option<string>, payload: Option<Json>, fireweaveReason: Option<string>,
    fromCache: bool, extra: map<string, Json>)

  type Adapter = (string, Context) -> Result<Resolution>

  datatype Decision = Decision(value: Json, variant: Option<string>, reason: string, error: Option<Error>,
                               metadata: map<string, Json>)

  datatype Runtime = Runtime(state: State, initError: Option<Error>, globalContext: Option<Context>,
                             clientContext: Option<Context>)

  datatype Request = Request(key: string, flagType: FlagType, defaultValue: Json, context: Option<Context>,
                             includePayload: bool)

  /** The context rules with the default bounds, which both runtimes are built with. */
  type Rules = Context -> Option<Error>

  predicate IsControl(c: char) { c <= '\U{1f}' || '\U{7f}' <= c <= '\U{9f}' }

  function KeyError(key: string): Option<Error> {
    if key == "" then Some(Error("ControlPointNotFound", "control point key must be a non-empty string", false))
    else if |key| > 256 then Some(Error("ControlPointNotFound", "control point key exceeds maximum length", false))
    else if exists i :: 0 <= i < |key| && IsControl(key[i]) then
      Some(Error("ControlPointNotFound", "control point key contains control characters", false))
    else None
  }

  predicate MatchesExpectedType(v: Json, t: FlagType) {
    match t
    case BooleanFlag => v.JBool?
    case TextFlag => v.JString?
    case NumberFlag => v.JNumber?
    case ObjectFlag => v.JObject? || v.JArray?
  }

  function MergedContext(rt: Runtime, invocation: Option<Context>): Context {
    MergeFrom(EMPTY, [rt.globalContext, rt.clientContext, invocation])
  }

  /** The first failing check of key, default and context. */
  function Malformed(rt: Runtime, rules: Rules, req: Request): Option<Error> {
    if KeyError(req.key).Some? then KeyError(req.key)
    else if !MatchesExpectedType(req.defaultValue, req.flagType) then Some(RustStart.Plain("TypeMismatch"))
    else rules(MergedContext(rt, req.context))
  }

  function LifecycleError(rt: Runtime): Option<Error> {
    match rt.state
    case Ready => None
    case Stale => None
    case Shutdown => Some(RustStart.Plain("AlreadyClosed"))
    case Fatal => Some(if rt.initError.Some? then rt.initError.value else RustStart.Plain("Configuration"))
    case _ => Some(RustStart.Plain("NotReady"))
  }

  function ErrorDecision(defaultValue: Json, e: Error): Decision {
    var kind := map["fireweave.errorKind" := JString(e.kind)];
    Decision(defaultValue, None, "ERROR", Some(e),
             if e.kind == "ControlPointNotFound" && e.quotaLimited then kind["fireweave.quotaLimited" := JBool(true)] else kind)
  }

  function ReasonOf(r: Resolution, state: State): string {
    if r.fireweaveReason.Some? then r.fireweaveReason.value
    else if !r.enabled then "DISABLED"
    else if r.fromCache || state == Stale then "STALE"
    else "TARGETING_MATCH"
  }

  ghost function MetadataOf(r: Resolution, includePayload: bool): map<string, Json> {
    var m: map<string, Json> := map[];
    var m := if r.version.Some? then m["fireweave.controlPointVersion" := JNumber(r.version.value)] else m;
    var m := if r.vendorId.Some? && r.reasonCode.Some? then
               m["fireweave.vendorControlPointId" := JNumber(r.vendorId.value)]["fireweave.reasonCode" := JString(r.reasonCode.value)]
             else m;
    var m := if r.fromCache then m["fireweave.fromCache" := JBool(true)] else m;
    var m := if includePayload && r.payload.Some? then
               m["fireweave.payload" := JString(if r.payload.value.JString? then r.payload.value.s else Print(r.payload.value))]
             else m;
    m + r.extra
  }

  /** A miss is the default without an error; a value of the wrong type is an error. */
  ghost function DecisionFrom(r: Resolution, state: State, req: Request): Decision {
    if !r.matched then Decision(req.defaultValue, None, "DEFAULT", None, map[])
    else if !MatchesExpectedType(r.value, req.flagType) then
      ErrorDecision(req.defaultValue, RustStart.Plain("TypeMismatch"))
    else Decision(r.value, r.variant, ReasonOf(r, state), None, MetadataOf(r, req.includePayload))
  }

  ghost function Settle(r: Result<Resolution>, state: State, req: Request): Decision {
    match r case Ok(found) => DecisionFrom(found, state, req) case Err(e) => ErrorDecision(req.defaultValue, e)
  }

  /** Key, default, context, lifecycle; only then the adapter. */
  ghost function Evaluate(rt: Runtime, rules: Rules, adapter: Adapter, req: Request): Decision {
    if Malformed(rt, rules, req).Some? then ErrorDecision(req.defaultValue, Malformed(rt, rules, req).value)
    else if LifecycleError(rt).Some? then ErrorDecision(req.defaultValue, LifecycleError(rt).value)
    else Settle(adapter(req.key, MergedContext(rt, req.context)), rt.state, req)
  }

  // ---- the permanent client ----

  /** A started client: its runtime and its adapter. */
  datatype Started = Started(runtime: Runtime, adapter: Adapter)

  const NEW_RUNTIME := Runtime(Ready, None, None, None)

  /** A client the core has just initialized. */
  predicate IsNew(born: Started) { born.runtime == NEW_RUNTIME }

  /** The singleton's fields, the permanent runtime, the clients built so far, the number of the next one,
      and what the last start, explicit or not, returned. */
  datatype World = World(s: RustStart.Fields, permanent: Runtime, clients: map<RustStart.Client, Started>,
                         n: RustStart.Client, lastStart: Option<Error>)

  const FIRST := World(RustStart.NEW, NEW_RUNTIME, map[], 0, None)

  /** What an implicit start would meet: the environment, whether building the core client fails, and the
      client it would build. */
  datatype Outside = Outside(env: Environment, init: Option<Error>, build: Build, born: Started)

  function Grow(w: World, s: RustStart.Fields, born: Started, result: Option<Error>): World {
    w.(s := s, n := w.n + 1, lastStart := result,
       clients := if s.client == Some(w.n) then w.clients[w.n := born] else w.clients)
  }

  function ImplicitStart(w: World, o: Outside): RustStart.Outcome {
    RustStart.StartLocked(w.s, RustStart.Attempt(RustStart.DEFAULTS, None, o.env, o.init), true, o.build, w.n)
  }

  function Acquire(w: World, o: Outside, key: Option<string>): RustStart.Acquired {
    RustStart.Acquire(w.s, key, o.env, o.init, o.build, w.n)
  }

  /** The world once a call has asked for the running client. */
  function Acquired(w: World, o: Outside, key: Option<string>): World {
    Grow(w, Acquire(w, o, key).s, o.born,
         if RustStart.StartsImplicitly(w.s) then ImplicitStart(w, o).result else w.lastStart)
  }

  datatype Forwarded = Forwarded(w: World, result: Result<Resolution>)

  /** The forwarding adapter. */
  function Forward(w: World, o: Outside, key: string, context: Context): Forwarded {
    var w1 := Acquired(w, o, Some(key));
    match Acquire(w, o, Some(key)).client
    case Err(e) => Forwarded(w1, Err(e))
    case Ok(c) => if c in w1.clients then Hand(w1, w1.clients[c], key, context) else Forwarded(w1, Err(RustStart.Plain("NotReady")))
  }

  /** A started client whose runtime is Ready or Stale is asked through its adapter. */
  function Hand(w: World, started: Started, key: string, context: Context): Forwarded {
    match started.runtime.state
    case Ready => Observed(w, started.adapter(key, context))
    case Stale => Observed(w, started.adapter(key, context))
    case Shutdown => Forwarded(w, Err(RustStart.Plain("AlreadyClosed")))
    case _ => Forwarded(w, Err(RustStart.Plain("NotReady")))
  }

  function Observed(w: World, r: Result<Resolution>): Forwarded {
    match r
    case Ok(_) => Forwarded(w, r)
    case Err(e) => Forwarded(w.(s := RustStart.Observe(w.s, e.kind).s), r)
  }

  datatype Answer = Answer(w: World, decision: Decision)

  /** One read through the permanent client. */
  ghost function Read(w: World, rules: Rules, o: Outside, req: Request): Answer {
    if Malformed(w.permanent, rules, req).Some? then
      Answer(w, ErrorDecision(req.defaultValue, Malformed(w.permanent, rules, req).value))
    else if LifecycleError(w.permanent).Some? then
      Answer(w, ErrorDecision(req.defaultValue, LifecycleError(w.permanent).value))
    else
      var f := Forward(w, o, req.key, MergedContext(w.permanent, req.context));
      Answer(f.w, Settle(f.result, w.permanent.state, req))
  }

  // ---- the process ----

  datatype Event =
    | Start(a: RustStart.Attempt, build: Build, born: Started)
    | Call(o: Outside, req: Request)
    | Register(o: Outside)
    | RemoteFailure(kind: string)
    | InstanceKey(derived: string, randomLine: Option<string>)
    | ShutDown
    | Turn(c: RustStart.Client, state: State, initError: Option<Error>)
    | TurnPermanent(state: State, initError: Option<Error>)
    | SetContexts(globalContext: Option<Context>, clientContext: Option<Context>)

  predicate Enabled(w: World, e: Event) {
    match e
    case Start(_, _, born) => IsNew(born)
    case Call(o, _) => IsNew(o.born)
    case Register(o) => IsNew(o.born)
    case Turn(c, _, _) => c in w.clients
    case _ => true
  }

  function Turned(rt: Runtime, state: State, initError: Option<Error>): Runtime {
    rt.(state := state, initError := initError)
  }

  ghost function Next(rules: Rules, w: World, e: Event): World
    requires Enabled(w, e)
  {
    match e
    case Start(a, build, born) =>
      var start := RustStart.StartLocked(w.s, a, false, build, w.n);
      Grow(w, start.s, born, start.result)
    case Call(o, req) => Read(w, rules, o, req).w
    case Register(o) => Acquired(w, o, None)
    case RemoteFailure(kind) => w.(s := RustStart.Observe(w.s, kind).s)
    case InstanceKey(derived, randomLine) => w.(s := RustStart.HandOut(w.s, derived, randomLine).0.s)
    case ShutDown => w.(s := RustStart.Stop(w.s))
    case Turn(c, state, initError) =>
      w.(clients := w.clients[c := w.clients[c].(runtime := Turned(w.clients[c].runtime, state, initError))])
    case TurnPermanent(state, initError) => w.(permanent := Turned(w.permanent, state, initError))
    case SetContexts(g, c) => w.(permanent := w.permanent.(globalContext := g, clientContext := c))
  }

  ghost predicate Reaches(rules: Rules, w: World, events: seq<Event>, w': World)
    decreases |events|
  {
    if events == [] then w == w' else Enabled(w, events[0]) && Reaches(rules, Next(rules, w, events[0]), events[1..], w')
  }

  /** The fields are consistent, a running client is among those built, none of which has contexts of its
      own, and a failed singleton holds what its last start returned. */
  predicate Inv(w: World) {
    && RustRuns.Consistent(w.s, w.n)
    && (w.s.client.Some? ==> w.s.client.value in w.clients)
    && (forall c :: c in w.clients ==>
          c < w.n && w.clients[c].runtime.globalContext == None && w.clients[c].runtime.clientContext == None)
    && (w.s.state == RustStart.Failed ==> w.s.err == w.lastStart)
  }

  lemma StartInv(w: World, a: RustStart.Attempt, implicit: bool, build: Build, born: Started)
    requires Inv(w) && IsNew(born)
    ensures var start := RustStart.StartLocked(w.s, a, implicit, build, w.n); Inv(Grow(w, start.s, born, start.result))
  {
    hide RustStart.StartLocked;
    RustRuns.StartKeeps(w.s, a, implicit, build, w.n);
  }

  /** What asking for the running client leaves behind, and what the call is told. */
  lemma AcquireInv(w: World, o: Outside, key: Option<string>)
    requires Inv(w) && IsNew(o.born)
    ensures var w1, told := Acquired(w, o, key), Acquire(w, o, key).client;
            && Inv(w1) && w1.permanent == w.permanent && w1.s.state != RustStart.Unstarted
            && (w1.s.state == RustStart.Ready ==> told == Ok(w1.s.client.value) && RunsOrBorn(w, o, w1, w1.s.client.value))
            && (w1.s.state == RustStart.Failed ==> w1.lastStart.Some? && told == Err(w1.lastStart.value))
            && (w1.s.state == RustStart.Shutdown ==> told == Err(RustStart.Plain("AlreadyClosed")))
  {
    hide RustStart.StartLocked, RustStart.Acquire;
    RustRuns.AcquireKeeps(w.s, key, o.env, o.init, o.build, w.n);
  }

  /** `c` is the client that ran before, unchanged, or the one this call's own start has just built. */
  ghost predicate RunsOrBorn(w: World, o: Outside, w1: World, c: RustStart.Client) {
    && c in w1.clients
    && if RustStart.StartsImplicitly(w.s) then c == w.n && w1.clients[c] == o.born
       else w.s.state == RustStart.Ready && w.s.client == Some(c) && c in w.clients && w1.clients[c] == w.clients[c]
  }

  lemma ObserveInv(w: World, kind: string)
    requires Inv(w)
    ensures Inv(w.(s := RustStart.Observe(w.s, kind).s))
  {
    hide RustStart.RemoteLine;
  }

  lemma CallInv(w: World, rules: Rules, o: Outside, req: Request)
    requires Inv(w) && IsNew(o.born)
    ensures Inv(Read(w, rules, o, req).w)
  {
    hide Inv, Malformed, MergedContext, Acquired, Acquire, RustStart.Observe, Settle;
    AcquireInv(w, o, Some(req.key));
    var w1 := Acquired(w, o, Some(req.key));
    forall kind ensures Inv(w1.(s := RustStart.Observe(w1.s, kind).s)) { ObserveInv(w1, kind); }
  }

  lemma HandOutInv(w: World, derived: string, randomLine: Option<string>)
    requires Inv(w)
    ensures Inv(w.(s := RustStart.HandOut(w.s, derived, randomLine).0.s))
  {
    hide RustStart.WarnOnce;
    if randomLine.Some? { RustRuns.WarnKeeps(w.s, randomLine.value); }
  }

  lemma StepInv(rules: Rules, w: World, e: Event)
    requires Inv(w) && Enabled(w, e)
    ensures Inv(Next(rules, w, e))
  {
    hide RustStart.StartLocked, Read, Acquired, RustStart.Observe, RustStart.HandOut, Grow;
    match e
    case Start(a, build, born) => StartInv(w, a, false, build, born);
    case Call(o, req) => CallInv(w, rules, o, req);
    case Register(o) => AcquireInv(w, o, None);
    case RemoteFailure(kind) => ObserveInv(w, kind);
    case InstanceKey(derived, randomLine) => HandOutInv(w, derived, randomLine);
    case ShutDown =>
    case Turn(_, _, _) =>
    case TurnPermanent(_, _) =>
    case SetContexts(_, _) =>
  }

  lemma {:induction false} RunInv(rules: Rules, w: World, events: seq<Event>, w': World)
    requires Inv(w) && Reaches(rules, w, events, w')
    ensures Inv(w')
    decreases |events|
  {
    hide Inv, Next, Enabled;
    if events != [] {
      StepInv(rules, w, events[0]);
      RunInv(rules, Next(rules, w, events[0]), events[1..], w');
    }
  }

  // ---- the same read made directly ----

  /** A context merged alone is itself. */
  lemma MergedAlone(c: Context)
    ensures MergeFrom(EMPTY, [None, None, Some(c)]) == c
  {
    var layers := [None, None, Some(c)];
    assert layers[1..] == [None, Some(c)] && layers[1..][1..] == [Some(c)];
    assert MergeFrom(EMPTY, [Some(c)]) == MergeFrom(Layered(EMPTY, Some(c)), []);
    assert map[] + c.attributes == c.attributes;
  }

  /** The same read made on a started client, with the context the permanent one merged. */
  ghost function Direct(started: Started, rules: Rules, req: Request, merged: Context): Decision {
    Evaluate(started.runtime, rules, started.adapter, req.(context := Some(merged)))
  }

  predicate NoContexts(started: Started) {
    started.runtime.globalContext == None && started.runtime.clientContext == None
  }

  /** Both runtimes find the same fault in a malformed read. */
  lemma SameFault(permanent: Runtime, started: Started, rules: Rules, req: Request)
    requires NoContexts(started)
    ensures var merged := MergedContext(permanent, req.context);
            && Malformed(started.runtime, rules, req.(context := Some(merged))) == Malformed(permanent, rules, req)
            && MergedContext(started.runtime, Some(merged)) == merged
  {
    hide KeyError, MergeFrom;
    MergedAlone(MergedContext(permanent, req.context));
  }

  lemma SettleIgnoresContext(r: Result<Resolution>, state: State, req: Request, context: Option<Context>)
    ensures Settle(r, state, req.(context := context)) == Settle(r, state, req)
  {
    hide MetadataOf;
  }

  /** What only the runtime's own state decides: a plain match that says nothing of its reason. */
  predicate ReasonFromState(r: Result<Resolution>, req: Request) {
    && r.Ok? && r.value.matched && MatchesExpectedType(r.value.value, req.flagType)
    && r.value.fireweaveReason == None && r.value.enabled && !r.value.fromCache
  }

  predicate Serving(state: State) { state == Ready || state == Stale }

  /** The states of two serving runtimes show in their decisions exactly on such matches, and only in the reason. */
  lemma StateShows(r: Result<Resolution>, a: State, b: State, req: Request)
    requires Serving(a) && Serving(b)
    ensures Settle(r, a, req) == Settle(r, b, req) <==> a == b || !ReasonFromState(r, req)
    ensures ReasonFromState(r, req) ==> Settle(r, a, req).reason == if a == Stale then "STALE" else "TARGETING_MATCH"
    ensures Settle(r, a, req) == Settle(r, b, req).(reason := Settle(r, a, req).reason)
  {
    hide MetadataOf;
    assert |"TARGETING_MATCH"| == 15 && |"STALE"| == 5;
  }

  /** How a decision made while the permanent runtime is in `state` relates to the client it was handed to. */
  ghost predicate ServedBy(started: Started, rules: Rules, req: Request, merged: Context, state: State, decision: Decision) {
    var own := started.runtime.state;
    if Serving(own) then
      var r := started.adapter(req.key, merged);
      var direct := Direct(started, rules, req, merged);
      && decision == Settle(r, state, req) && direct == Settle(r, own, req)
      && (decision == direct <==> own == state || !ReasonFromState(r, req))
      && decision == direct.(reason := decision.reason)
    else
      decision == ErrorDecision(req.defaultValue, RustStart.Plain(if own == Shutdown then "AlreadyClosed" else "NotReady"))
  }

  /** A read that passed its checks on the permanent runtime, handed to a started client, whatever has become
      of the world `w` and of the permanent runtime's state since. */
  lemma HandServes(w: World, permanent: Runtime, started: Started, rules: Rules, req: Request, state: State)
    requires NoContexts(started) && Malformed(permanent, rules, req) == None && Serving(state)
    ensures var merged := MergedContext(permanent, req.context);
            var f := Hand(w, started, req.key, merged);
            ServedBy(started, rules, req, merged, state, Settle(f.result, state, req)) && OnlyObserved(w, f.w)
  {
    hide Malformed, MergedContext, DecisionFrom, RustStart.Observe, NoContexts, OnlyObserved;
    var own, merged := started.runtime.state, MergedContext(permanent, req.context);
    HandOnlyObserves(w, started, req.key, merged);
    if Serving(own) {
      var r := started.adapter(req.key, merged);
      SameFault(permanent, started, rules, req);
      SettleIgnoresContext(r, own, req, Some(merged));
      StateShows(r, state, own, req);
    }
  }

  /** Nothing but the record of a remote failure differs. */
  ghost predicate OnlyObserved(w: World, w': World) {
    w' == w.(s := w.s.(lastErrorKind := w'.s.lastErrorKind, remoteWarned := w'.s.remoteWarned))
  }

  lemma HandOnlyObserves(w: World, started: Started, key: string, context: Context)
    ensures OnlyObserved(w, Hand(w, started, key, context).w)
  {
    hide RustStart.RemoteLine;
  }

  lemma FirstInv()
    ensures Inv(FIRST)
  {
  }

  lemma RunningIn(w: World)
    requires Inv(w) && w.s.state == RustStart.Ready
    ensures w.s.client.Some? && w.s.client.value in w.clients && NoContexts(w.clients[w.s.client.value])
  {
  }

  /** Every read in every process, whatever has started, failed, turned stale or been shut down before.
      A malformed read changes nothing and names its own fault. Any other asks for the running client, if
      nothing was tried yet by starting it. It is then served by the client that ran already or by the one its
      own start built, or else it is the caller's default with what the last start returned, or with
      AlreadyClosed after a shutdown. */
  lemma EveryRead(rules: Rules, events: seq<Event>, w: World, o: Outside, req: Request)
    requires Reaches(rules, FIRST, events, w) && IsNew(o.born)
    ensures var answer, fault, closed := Read(w, rules, o, req), Malformed(w.permanent, rules, req), LifecycleError(w.permanent);
            var w1 := Acquired(w, o, Some(req.key));
            if fault.Some? then answer == Answer(w, ErrorDecision(req.defaultValue, fault.value))
            else if closed.Some? then answer == Answer(w, ErrorDecision(req.defaultValue, closed.value))
            else
              match w1.s.state
              case Ready =>
                && w1.s.client.Some? && RunsOrBorn(w, o, w1, w1.s.client.value) && OnlyObserved(w1, answer.w)
                && ServedBy(w1.clients[w1.s.client.value], rules, req, MergedContext(w.permanent, req.context),
                            w.permanent.state, answer.decision)
              case Failed => w1.lastStart.Some? && answer == Answer(w1, ErrorDecision(req.defaultValue, w1.lastStart.value))
              case Shutdown => answer == Answer(w1, ErrorDecision(req.defaultValue, RustStart.Plain("AlreadyClosed")))
              case Unstarted => false
  {
    hide Malformed, MergedContext, Acquired, Acquire, Inv, Next, Hand, DecisionFrom, ServedBy, OnlyObserved, Reaches;
    FirstInv();
    RunInv(rules, FIRST, events, w);
    AcquireInv(w, o, Some(req.key));
    var w1 := Acquired(w, o, Some(req.key));
    if Malformed(w.permanent, rules, req).None? && LifecycleError(w.permanent).None? && w1.s.state == RustStart.Ready {
      RunningIn(w1);
      HandServes(w1, w.permanent, w1.clients[w1.s.client.value], rules, req, w.permanent.state);
    }
  }

  /** Once built, a client keeps its adapter and gets no contexts of its own. */
  lemma ClientStays(rules: Rules, w: World, e: Event, c: RustStart.Client)
    requires Inv(w) && Enabled(w, e) && c in w.clients
    ensures var w' := Next(rules, w, e);
            c in w'.clients && w'.clients[c].adapter == w.clients[c].adapter && NoContexts(w'.clients[c])
  {
    hide RustStart.StartLocked, RustStart.Acquire, RustStart.Observe, RustStart.HandOut, Malformed, MergedContext, Settle;
    assert c != w.n;
  }

  lemma {:induction false} ClientStaysOn(rules: Rules, w: World, events: seq<Event>, w': World, c: RustStart.Client)
    requires Inv(w) && Reaches(rules, w, events, w') && c in w.clients && NoContexts(w.clients[c])
    ensures c in w'.clients && w'.clients[c].adapter == w.clients[c].adapter && NoContexts(w'.clients[c])
    decreases |events|
  {
    hide Inv, Next, Enabled, NoContexts;
    if events != [] {
      StepInv(rules, w, events[0]);
      ClientStays(rules, w, events[0], c);
      ClientStaysOn(rules, Next(rules, w, events[0]), events[1..], w', c);
    }
  }

  /** The lock is released between asking for the running client and asking its adapter: whatever happens in
      between, a restart or a shutdown included, the read is served by the client it was given, as that one is by
      then. */
  lemma InterleavedRead(rules: Rules, events: seq<Event>, w: World, o: Outside, req: Request,
                        between: seq<Event>, w2: World, state: State)
    requires Reaches(rules, FIRST, events, w) && IsNew(o.born) && Malformed(w.permanent, rules, req) == None
    requires Acquired(w, o, Some(req.key)).s.state == RustStart.Ready
    requires Reaches(rules, Acquired(w, o, Some(req.key)), between, w2) && Serving(state)
    ensures var w1, merged := Acquired(w, o, Some(req.key)), MergedContext(w.permanent, req.context);
            && w1.s.client.Some? && w1.s.client.value in w1.clients && w1.s.client.value in w2.clients
            && var c, f := w1.s.client.value, Hand(w2, w2.clients[w1.s.client.value], req.key, merged);
            && w2.clients[c].adapter == w1.clients[c].adapter
            && ServedBy(w2.clients[c], rules, req, merged, state, Settle(f.result, state, req)) && OnlyObserved(w2, f.w)
  {
    hide Malformed, MergedContext, Acquired, Acquire, Inv, Next, Hand, DecisionFrom, ServedBy, OnlyObserved, Reaches, NoContexts;
    FirstInv();
    RunInv(rules, FIRST, events, w);
    AcquireInv(w, o, Some(req.key));
    var w1 := Acquired(w, o, Some(req.key));
    RunningIn(w1);
    ClientStaysOn(rules, w1, between, w2, w1.s.client.value);
    HandServes(w2, w.permanent, w2.clients[w1.s.client.value], rules, req, state);
  }

  /** So while the permanent and the started runtime are both Ready, every read through the permanent client,
      malformed or not, is the read made on the started client with the merged context. */
  lemma ForwardedIsDirect(rules: Rules, events: seq<Event>, w: World, o: Outside, req: Request)
    requires Reaches(rules, FIRST, events, w) && IsNew(o.born) && w.permanent.state == Ready
    ensures var w1 := Acquired(w, o, Some(req.key));
            w1.s.state == RustStart.Ready ==>
              && w1.s.client.Some? && w1.s.client.value in w1.clients
              && (w1.clients[w1.s.client.value].runtime.state == Ready ==>
                    Read(w, rules, o, req).decision ==
                    Direct(w1.clients[w1.s.client.value], rules, req, MergedContext(w.permanent, req.context)))
  {
    hide Malformed, MergedContext, Acquired, Acquire, Inv, Next, Forward, DecisionFrom, Reaches, OnlyObserved;
    EveryRead(rules, events, w, o, req);
    FirstInv();
    RunInv(rules, FIRST, events, w);
    AcquireInv(w, o, Some(req.key));
    var w1 := Acquired(w, o, Some(req.key));
    if w1.s.state == RustStart.Ready {
      RunningIn(w1);
      SameFault(w.permanent, w1.clients[w1.s.client.value], rules, req);
    }
  }

  /** In particular the first read, when the start it makes succeeds. */
  lemma FirstReadIsDirect(rules: Rules, events: seq<Event>, w: World, o: Outside, req: Request)
    requires Reaches(rules, FIRST, events, w) && IsNew(o.born) && w.permanent.state == Ready
    requires RustStart.StartsImplicitly(w.s) && ImplicitStart(w, o).result == None
    ensures var w1 := Acquired(w, o, Some(req.key));
            && w1.s.client == Some(w.n) && w1.clients == w.clients[w.n := o.born]
            && Read(w, rules, o, req).decision == Direct(o.born, rules, req, MergedContext(w.permanent, req.context))
  {
    hide Malformed, MergedContext, Forward, DecisionFrom, Read, Direct, Reaches, RustStart.StartLocked, RustStart.Acquire;
    FirstInv();
    RunInv(rules, FIRST, events, w);
    RustRuns.AcquireKeeps(w.s, Some(req.key), o.env, o.init, o.build, w.n);
    RustRuns.StartKeeps(w.s, RustStart.Attempt(RustStart.DEFAULTS, None, o.env, o.init), true, o.build, w.n);
    ForwardedIsDirect(rules, events, w, o, req);
  }
}
