/** Nothing the start profile says or decides depends on the key itself: renaming keys
    within their family changes no mode, line, message or status of any run. */
module KeyRenaming {
  import opened Optional
  import Redaction
  import RustHosts
  import opened RustResolve
  import opened Signatures
  import opened RustRuns
  import opened RustStart

  type Renaming = string -> string

  /** One-to-one on keys, keeping families and giving keys no surrounding whitespace. */
  ghost predicate Admissible(f: Renaming) {
    && (forall a, b :: f(a) == f(b) ==> a == b)
    && (forall k :: FamilyOf(f(k)) == FamilyOf(k))
    && (forall v :: Trim(v) != "" ==> f(Trim(v)) != "" && Trim(f(Trim(v))) == f(Trim(v)))
  }

  /** Swapping two project keys is such a renaming. */
  lemma SwapIsAdmissible(a: string, b: string)
    requires Trim(a) == a != "" && Trim(b) == b != "" && FamilyOf(a) == FamilyOf(b)
    ensures Admissible(k => if k == a then b else if k == b then a else k)
  {
    hide Trim, FamilyOf;
    forall v | Trim(v) != "" ensures Trim(Trim(v)) == Trim(v) { TrimTwice(v); }
  }

  lemma {:induction false} TrimEndTwice(s: string)
    ensures TrimEnd(TrimEnd(s)) == TrimEnd(s)
    decreases |s|
  {
    hide Redaction.IsWhite;
    if s != "" && Redaction.IsWhite(s[|s| - 1]) { TrimEndTwice(s[..|s| - 1]); }
  }

  lemma TrimTwice(v: string)
    ensures Trim(Trim(v)) == Trim(v)
  {
    hide TrimEnd, Redaction.IsWhite, Redaction.RunLen;
    var t := Trim(v);
    RustHosts.TrimSolid(v);
    TrimEndTwice(v[Redaction.RunLen(Redaction.White, v)..]);
    Redaction.RunLenIs(Redaction.White, t, 0);
    assert t[0..] == t;
  }

  function MapKey(f: Renaming, k: Option<string>): Option<string> { if k.Some? then Some(f(k.value)) else None }

  /** A raw setting that holds a key. */
  function Raw(f: Renaming, v: Option<string>): Option<string> {
    if Trimmed(v).Some? then Some(f(Trimmed(v).value)) else v
  }

  function InOptions(f: Renaming, o: Options): Options { o.(key := Raw(f, o.key)) }

  predicate HoldsKey(name: string) { name == ENV_KEY || name == LEGACY_KEY }

  function InEnvironment(f: Renaming, env: Environment): Environment {
    name => if HoldsKey(name) then Raw(f, env(name)) else env(name)
  }

  function InResolved(f: Renaming, r: Resolved): Resolved { r.(key := MapKey(f, r.key)) }

  function InResult(f: Renaming, r: Result<Resolved>): Result<Resolved> {
    match r case Ok(v) => Ok(InResolved(f, v)) case Err(e) => Err(e)
  }

  function InSignature(f: Renaming, s: Structural): Structural { s.(key := MapKey(f, s.key)) }

  function InFields(f: Renaming, s: Fields): Fields {
    s.(resolved := if s.resolved.Some? then Some(InResolved(f, s.resolved.value)) else None,
       sig := if s.sig.Some? then Some(InSignature(f, s.sig.value)) else None)
  }

  function InAttempt(f: Renaming, a: Attempt): Attempt {
    a.(options := InOptions(f, a.options), env := InEnvironment(f, a.env))
  }

  // ---- resolve ----

  lemma RawTrimmed(f: Renaming, v: Option<string>)
    requires Admissible(f)
    ensures Trimmed(Raw(f, v)) == MapKey(f, Trimmed(v))
  {
    hide Trim, FamilyOf;
  }

  lemma {:induction false} OtherNames(f: Renaming, names: seq<string>, env: Environment)
    requires forall i :: 0 <= i < |names| ==> !HoldsKey(names[i])
    ensures FirstSet(names, InEnvironment(f, env)) == FirstSet(names, env)
  {
    hide Trimmed, Raw, HoldsKey;
    if names != [] { OtherNames(f, names[1..], env); }
  }

  function InSourced(f: Renaming, s: Option<Sourced>): Option<Sourced> {
    if s.Some? then Some(Sourced(f(s.value.value), s.value.source)) else None
  }

  lemma KeyName(f: Renaming, name: string, env: Environment)
    requires Admissible(f) && HoldsKey(name)
    ensures FirstSet([name], InEnvironment(f, env)) == InSourced(f, FirstSet([name], env))
  {
    hide Trimmed, Raw, HoldsKey, Admissible;
    RawTrimmed(f, env(name));
    assert [name][1..] == [];
  }

  lemma PickKeyRenamed(f: Renaming, o: Options, env: Environment)
    requires Admissible(f)
    ensures var p, q := PickKey(o, env), PickKey(InOptions(f, o), InEnvironment(f, env));
            q.found == InSourced(f, p.found) && q.warnings == p.warnings
  {
    hide Trimmed, Raw, FirstSet, Admissible, LegacyLine, InEnvironment;
    RawTrimmed(f, o.key);
    KeyName(f, ENV_KEY, env);
    KeyName(f, LEGACY_KEY, env);
  }

  lemma OtherPick(f: Renaming, option: Option<string>, optionName: string, names: seq<string>, legacy: seq<string>,
                  env: Environment, replacement: string)
    requires forall i :: 0 <= i < |names| ==> !HoldsKey(names[i])
    requires forall i :: 0 <= i < |legacy| ==> !HoldsKey(legacy[i])
    ensures Pick(option, optionName, names, legacy, InEnvironment(f, env), replacement)
            == Pick(option, optionName, names, legacy, env, replacement)
  {
    hide Trimmed, FirstSet, LegacyLine, InEnvironment, HoldsKey;
    OtherNames(f, names, env);
    OtherNames(f, legacy, env);
  }

  /** None of the other names the profile reads holds a key. */
  lemma NamesApart()
    ensures !HoldsKey(ENV_URL) && !HoldsKey("FW_API_URL") && !HoldsKey("FW_ATTEST_URL")
    ensures !HoldsKey(ENV_ENVIRONMENT) && !HoldsKey("APP_ENV") && !HoldsKey(RETIRED_ENVIRONMENT)
  {
    var k, l := ENV_KEY, LEGACY_KEY;
    assert |k| == 13 && |l| == 18;
    assert |ENV_URL| == 13 && ENV_URL[10] == 'U' && k[10] == 'K';
    assert |"FW_API_URL"| == 10 && |"FW_ATTEST_URL"| == 13 && "FW_ATTEST_URL"[1] == 'W' && k[1] == 'I';
    assert |ENV_ENVIRONMENT| == 13 && ENV_ENVIRONMENT[10] == 'E';
    assert |"APP_ENV"| == 7 && |RETIRED_ENVIRONMENT| == 6;
  }

  lemma UrlRenamed(f: Renaming, o: Options, env: Environment, build: Build)
    ensures ResolveUrl(InOptions(f, o), InEnvironment(f, env), build) == ResolveUrl(o, env, build)
  {
    hide Pick, InEnvironment, HoldsKey, ParseUrl, OtherLoopbacks, Redaction.Redact, Raw, TrimSlashes,
      InvalidUrlMessage, HttpsMessage, ChannelUrl;
    NamesApart();
    OtherPick(f, o.url, OPT_URL, [ENV_URL], ["FW_API_URL", "FW_ATTEST_URL"], env, ENV_URL);
  }

  lemma NoKeyRenamed(f: Renaming, found: Option<Sourced>, env: Environment)
    ensures NoKeyError(found, InEnvironment(f, env)) == NoKeyError(found, env)
  {
    hide Trimmed, HoldsKey, Raw, ConfigError, NoKeyText;
    NamesApart();
  }

  lemma KeylessRenamed(f: Renaming, o: Options, env: Environment, build: Build, warnings: seq<string>)
    ensures ResolveKeyless(InOptions(f, o), InEnvironment(f, env), build, warnings)
            == InResult(f, ResolveKeyless(o, env, build, warnings))
  {
    hide Pick, InEnvironment, HoldsKey, Raw, NoKeyError, IsDevEnvironment, Redaction.Redact;
    NamesApart();
    OtherPick(f, o.environment, OPT_ENVIRONMENT, [ENV_ENVIRONMENT, "APP_ENV"], [], env, ENV_ENVIRONMENT);
    var found := Pick(o.environment, OPT_ENVIRONMENT, [ENV_ENVIRONMENT, "APP_ENV"], [], env, ENV_ENVIRONMENT).found;
    NoKeyRenamed(f, found, env);
  }

  lemma SameFamily(f: Renaming, key: string)
    requires Admissible(f)
    ensures FamilyOf(f(key)) == FamilyOf(key)
  {
  }

  /** The decision is the same but for the key; an error is the same, word for word. */
  lemma ResolveRenamed(f: Renaming, o: Options, env: Environment, build: Build)
    requires Admissible(f)
    ensures Resolve(InOptions(f, o), InEnvironment(f, env), build) == InResult(f, Resolve(o, env, build))
  {
    hide PickKey, InEnvironment, Raw, Admissible, FamilyOf, FamilyMessage, ResolveUrl, ResolveKeyless,
      Redaction.Redact, IgnoredKeyLine;
    PickKeyRenamed(f, o, env);
    UrlRenamed(f, o, env, build);
    KeylessRenamed(f, o, env, build, PickKey(o, env).warnings);
    if PickKey(o, env).found.Some? { SameFamily(f, PickKey(o, env).found.value.value); }
  }

  // ---- the singleton ----

  lemma DiffersRenamed(f: Renaming, a: Structural, b: Structural)
    requires Admissible(f)
    ensures Differs(InSignature(f, a), InSignature(f, b)) == Differs(a, b)
  {
    hide FamilyOf, Trim;
  }

  lemma WarnOnceRenamed(f: Renaming, s: Fields, line: string)
    ensures WarnOnce(InFields(f, s), line) == Warned(InFields(f, WarnOnce(s, line).s), WarnOnce(s, line).lines)
  {
  }

  lemma {:induction false} WarnEachRenamed(f: Renaming, s: Fields, lines: seq<string>)
    ensures WarnEach(InFields(f, s), lines) == Warned(InFields(f, WarnEach(s, lines).s), WarnEach(s, lines).lines)
    decreases |lines|
  {
    hide InFields, WarnOnce;
    if lines != [] {
      WarnOnceRenamed(f, s, lines[0]);
      WarnEachRenamed(f, WarnOnce(s, lines[0]).s, lines[1..]);
    }
  }

  function InOutcome(f: Renaming, o: Outcome): Outcome { o.(s := InFields(f, o.s)) }

  lemma SameLocalLine(f: Renaming, r: Resolved)
    ensures LocalLine(InResolved(f, r)) == LocalLine(r)
  {
    hide Digits;
  }

  lemma BeginRenamed(f: Renaming, s: Fields, a: Attempt, r: Resolved, implicit: bool, built: Client)
    ensures Begin(InFields(f, s), InAttempt(f, a), InResolved(f, r), implicit, built)
            == InOutcome(f, Begin(s, a, r, implicit, built))
  {
    hide Trimmed, LocalLine, InitFailedLine, WarnEach, WarnOnce, ConfigError, InEnvironment, Raw, Install;
    var logged := if !implicit && a.log.Some? then s.(log := a.log) else s;
    SameLocalLine(f, r);
    match a.init
    case Some(e) => WarnOnceRenamed(f, Fail(logged, e), InitFailedLine(e));
    case None =>
      WarnEachRenamed(f, logged, r.warnings);
      InstallRenamed(f, WarnEach(logged, r.warnings).s, r, Trimmed(a.options.instanceId), implicit, built);
  }

  lemma InstallRenamed(f: Renaming, s: Fields, r: Resolved, id: Option<string>, implicit: bool, built: Client)
    ensures Install(InFields(f, s), InResolved(f, r), id, implicit, built) == InFields(f, Install(s, r, id, implicit, built))
  {
  }

  lemma StartRenamed(f: Renaming, s: Fields, a: Attempt, implicit: bool, build: Build, built: Client)
    requires Admissible(f)
    ensures StartLocked(InFields(f, s), InAttempt(f, a), implicit, build, built)
            == InOutcome(f, StartLocked(s, a, implicit, build, built))
  {
    hide Resolve, Begin, Differs, ConfigError, ConflictMessage, Commas, NotStartedLine, WarnOnce, InEnvironment, Raw,
      Trimmed, Admissible;
    ResolveRenamed(f, a.options, a.env, build);
    var s1 := if s.state == Failed || s.state == Shutdown then Fresh(s) else s;
    match Resolve(a.options, a.env, build)
    case Err(e) => WarnOnceRenamed(f, Fail(s1, e), NotStartedLine(e));
    case Ok(r) =>
      BeginRenamed(f, s1, a, r, implicit, built);
      if s1.sig.Some? {
        DiffersRenamed(f, s1.sig.value, RustSignature(r, Trimmed(a.options.instanceId)));
      }
  }

  lemma LookRenamed(f: Renaming, s: Fields, key: Option<string>)
    ensures Look(InFields(f, s), key) == (var a := Look(s, key); a.(s := InFields(f, a.s)))
  {
    hide MissingLine, WarnOnce;
    if key.Some? { WarnOnceRenamed(f, s, MissingLine(key.value)); }
  }

  lemma DefaultsRenamed(f: Renaming)
    ensures InOptions(f, DEFAULTS) == DEFAULTS
  {
  }

  lemma AcquireRenamed(f: Renaming, s: Fields, key: Option<string>, env: Environment, init: Option<Error>,
                       build: Build, built: Client)
    requires Admissible(f)
    ensures Acquire(InFields(f, s), key, InEnvironment(f, env), init, build, built)
            == (var a := Acquire(s, key, env, init, build, built); a.(s := InFields(f, a.s)))
  {
    hide StartLocked, Look, InEnvironment, InOptions, Admissible;
    DefaultsRenamed(f);
    var a := Attempt(DEFAULTS, None, env, init);
    assert InAttempt(f, a) == Attempt(DEFAULTS, None, InEnvironment(f, env), init);
    if StartsImplicitly(s) {
      StartRenamed(f, s, a, true, build, built);
      LookRenamed(f, StartLocked(s, a, true, build, built).s, key);
    } else {
      LookRenamed(f, s, key);
    }
  }

  lemma RemoteLineRenamed(f: Renaming, kind: string, r: Option<Resolved>)
    ensures RemoteLine(kind, if r.Some? then Some(InResolved(f, r.value)) else None) == RemoteLine(kind, r)
  {
    hide RemoteText;
  }

  lemma ObserveRenamed(f: Renaming, s: Fields, kind: string)
    ensures Observe(InFields(f, s), kind) == Warned(InFields(f, Observe(s, kind).s), Observe(s, kind).lines)
  {
    hide RemoteLine, Redaction.Redact, IsRemoteFailure;
    RemoteLineRenamed(f, kind, s.resolved);
  }

  lemma StatusRenamed(f: Renaming, s: Fields)
    ensures StatusOf(InFields(f, s)) == StatusOf(s)
  {
  }

  // ---- whole runs ----

  function InEvent(f: Renaming, e: Event): Event {
    match e
    case Start(a) => Start(InAttempt(f, a))
    case Read(key, env, init) => Read(key, InEnvironment(f, env), init)
    case _ => e
  }

  lemma HandOutRenamed(f: Renaming, s: Fields, derived: string, randomLine: Option<string>)
    ensures HandOut(InFields(f, s), derived, randomLine) ==
            (var (w, key) := HandOut(s, derived, randomLine); (w.(s := InFields(f, w.s)), key))
  {
    hide WarnOnce;
    if randomLine.Some? { WarnOnceRenamed(f, s, randomLine.value); }
  }

  lemma StepRenamed(f: Renaming, s: Fields, e: Event, build: Build, built: Client)
    requires Admissible(f)
    ensures Step(InFields(f, s), InEvent(f, e), build, built) ==
            (var t := Step(s, e, build, built); Stepped(InFields(f, t.s), t.seen))
  {
    hide StartLocked, Acquire, Observe, HandOut, StatusOf, InFields, InAttempt, InEnvironment, Admissible, Stop;
    StatusRenamed(f, Step(s, e, build, built).s);
    match e
    case Start(a) => StartRenamed(f, s, a, false, build, built);
    case Read(key, env, init) => AcquireRenamed(f, s, key, env, init, build, built);
    case RemoteFailure(kind) => ObserveRenamed(f, s, kind);
    case InstanceKey(derived, randomLine) => HandOutRenamed(f, s, derived, randomLine);
    case ShutDown => StopRenamed(f, s);
  }

  lemma StopRenamed(f: Renaming, s: Fields)
    ensures Stop(InFields(f, s)) == InFields(f, Stop(s))
  {
  }

  /** Two runs that differ only in their keys, one to one and within key families, look the same from
      outside at every step: lines, errors, clients, instance keys and statuses. */
  lemma {:induction false} RunsLookAlike(f: Renaming, s: Fields, events: seq<Event>, build: Build, n: Client)
    requires Admissible(f)
    ensures Observed(InFields(f, s), Renamed(f, events), build, n) == Observed(s, events, build, n)
    decreases |events|
  {
    hide Step, InFields, InEvent, Admissible;
    if events != [] {
      StepRenamed(f, s, events[0], build, n);
      RunsLookAlike(f, Step(s, events[0], build, n).s, events[1..], build, n + 1);
    }
  }

  function Renamed(f: Renaming, events: seq<Event>): seq<Event> {
    if events == [] then [] else [InEvent(f, events[0])] + Renamed(f, events[1..])
  }
}
