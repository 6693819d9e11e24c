/** The Go runtime's lifecycle: `Initialize` holds its own mutex but releases the
    state mutex around the adapter call, so its two critical sections interleave
    with `MarkStale` and `Shutdown`. */
module GoRuntime {
  import opened Optional
  import opened ContextGraph
  import opened GoEvaluate

  /** What the adapter's Initialize returned; an error that is not typed counts as Configuration. */
  datatype InitResult = Up | Down(kind: Option<Kind>)

  function KindOf(r: InitResult): Kind
    requires r.Down?
  {
    if r.kind.Some? then r.kind.value else Configuration
  }

  predicate IsFatal(r: InitResult) { r.Down? && KindOf(r) == Configuration }

  /** What the state mutex guards. */
  datatype Life = Life(state: State, fatalErr: Option<Kind>)

  const NEW := Life(Uninitialized, None)

  /** First critical section: go on to the adapter, or return at once. */
  datatype Entry = Proceed | Return(error: Option<Kind>)

  function Enter(l: Life): (Life, Entry) {
    match l.state
    case Shutdown => (l, Return(Some(AlreadyClosed)))
    case Ready => (l, Return(None))
    case Stale => (l, Return(None))
    case Fatal => (l, Return(l.fatalErr))
    case _ => (l.(state := Initializing), Proceed)
  }

  /** Second critical section, with the adapter's result. The state is not looked at again. */
  function Leave(l: Life, r: InitResult): Life {
    if r.Up? then l.(state := Ready)
    else if IsFatal(r) then Life(Fatal, Some(KindOf(r)))
    else l.(state := Failed)
  }

  function Age(l: Life): Life { if l.state == Ready then l.(state := Stale) else l }

  /** The runtime's fields and their critical sections. */
  class Runtime {
    var state: State
    var fatalErr: Option<Kind>

    function Now(): Life
      reads this
    {
      Life(state, fatalErr)
    }

    constructor ()
      ensures Now() == NEW
    {
      state, fatalErr := Uninitialized, None;
    }

    method EnterInitialize() returns (r: Entry)
      modifies this
      ensures (Now(), r) == Enter(old(Now()))
    {
      match state {
        case Shutdown => return Return(Some(AlreadyClosed));
        case Ready => return Return(None);
        case Stale => return Return(None);
        case Fatal => return Return(fatalErr);
        case _ =>
      }
      state := Initializing;
      r := Proceed;
    }

    method LeaveInitialize(result: InitResult) returns (error: Option<Kind>)
      modifies this
      ensures Now() == Leave(old(Now()), result)
      ensures error == if result.Up? then None else Some(KindOf(result))
    {
      if result.Down? {
        var kind := KindOf(result);
        if kind == Configuration {
          state := Fatal;
          fatalErr := Some(kind);
        } else {
          state := Failed;
        }
        return Some(kind);
      }
      state := Ready;
      error := None;
    }

    method MarkStale()
      modifies this
      ensures Now() == Age(old(Now()))
    {
      if state == Ready { state := Stale; }
    }

    /** Whether this call is the one that closes the adapter. */
    method LockShutdown() returns (closes: bool)
      modifies this
      ensures Now() == old(Now()).(state := Shutdown) && closes == (old(state) != Shutdown)
    {
      if state == Shutdown { return false; }
      state := Shutdown;
      closes := true;
    }
  }

  // ---- runs ----

  /** Besides the fields: is an Initialize between its sections, what the adapter answered so far,
      and how often Close is about to be and has been called. */
  datatype World = World(life: Life, inFlight: bool, began: nat, answers: seq<InitResult>, closing: nat, closed: nat)

  const START := World(NEW, false, 0, [], 0, 0)

  datatype Event = Initialize | AdapterAnswers(result: InitResult) | MarkStale | ShutdownLocks | AdapterCloses

  /** `initMu` lets one Initialize in at a time. */
  predicate Enabled(w: World, e: Event) {
    match e
    case Initialize => !w.inFlight
    case AdapterAnswers(_) => w.inFlight
    case MarkStale => true
    case ShutdownLocks => true
    case AdapterCloses => w.closing > 0
  }

  function Next(w: World, e: Event): World
    requires Enabled(w, e)
  {
    match e
    case Initialize =>
      var (life, entry) := Enter(w.life);
      if entry.Proceed? then w.(life := life, inFlight := true, began := w.began + 1) else w.(life := life)
    case AdapterAnswers(r) => w.(life := Leave(w.life, r), inFlight := false, answers := w.answers + [r])
    case MarkStale => w.(life := Age(w.life))
    case ShutdownLocks =>
      w.(life := w.life.(state := Shutdown), closing := w.closing + (if w.life.state == Shutdown then 0 else 1))
    case AdapterCloses => w.(closing := w.closing - 1, closed := w.closed + 1)
  }

  /** `w'` is reached from `w` by the events in order. */
  predicate Run(w: World, events: seq<Event>, w': World)
    decreases |events|
  {
    if events == [] then w == w' else Enabled(w, events[0]) && Run(Next(w, events[0]), events[1..], w')
  }

  function Successes(answers: seq<InitResult>): nat {
    if answers == [] then 0 else Successes(answers[..|answers| - 1]) + (if answers[|answers| - 1].Up? then 1 else 0)
  }

  predicate SawFatal(answers: seq<InitResult>) {
    exists i :: 0 <= i < |answers| && IsFatal(answers[i])
  }

  ghost predicate Inv(w: World) {
    && (w.inFlight ==> w.life.state == Initializing || w.life.state == Shutdown)
    && (w.life.state == Initializing ==> w.inFlight)
    && w.began == |w.answers| + (if w.inFlight then 1 else 0)
    && Successes(w.answers) <= 1
    && (Successes(w.answers) == 1 ==> !w.inFlight && w.life.state in {Ready, Stale, Shutdown})
    && (w.life.state in {Ready, Stale} ==> Successes(w.answers) == 1)
    && (SawFatal(w.answers) ==> !w.inFlight && w.life.state in {Fatal, Shutdown})
    && (w.life.state == Fatal ==> w.life.fatalErr == Some(Configuration))
  }

  lemma AnswersStep(answers: seq<InitResult>, r: InitResult)
    ensures Successes(answers + [r]) == Successes(answers) + (if r.Up? then 1 else 0)
    ensures SawFatal(answers + [r]) <==> SawFatal(answers) || IsFatal(r)
  {
    var more := answers + [r];
    assert more[..|more| - 1] == answers;
    if IsFatal(r) { assert IsFatal(more[|answers|]); }
    if i :| 0 <= i < |answers| && IsFatal(answers[i]) { assert IsFatal(more[i]); }
  }

  lemma StepKeepsInv(w: World, e: Event)
    requires Inv(w) && Enabled(w, e)
    ensures Inv(Next(w, e))
  {
    hide Successes, SawFatal, IsFatal;
    if e.AdapterAnswers? { AnswersStep(w.answers, e.result); LeaveState(w.life, e.result); }
  }

  lemma LeaveState(l: Life, r: InitResult)
    ensures Leave(l, r).state == if r.Up? then Ready else if IsFatal(r) then Fatal else Failed
    ensures IsFatal(r) ==> Leave(l, r).fatalErr == Some(Configuration) && !r.Up?
  {
  }

  lemma {:induction false} RunKeepsInv(w: World, events: seq<Event>, w': World)
    requires Inv(w) && Run(w, events, w')
    ensures Inv(w')
    decreases |events|
  {
    hide Inv;
    if events != [] {
      StepKeepsInv(w, events[0]);
      RunKeepsInv(Next(w, events[0]), events[1..], w');
    }
  }

  lemma NoAnswers(answers: seq<InitResult>)
    requires answers == []
    ensures Successes(answers) == 0 && !SawFatal(answers)
  {
  }

  lemma StartInv()
    ensures Inv(START)
  {
    var w := START;
    NoAnswers(w.answers);
    assert w.life.state == Uninitialized && w.began == |w.answers| == 0;
  }

  /** In every run the adapter is initialized successfully at most once. */
  lemma InitializedOnce(events: seq<Event>, w: World)
    requires Run(START, events, w)
    ensures Successes(w.answers) <= 1
  {
    StartInv();
    RunKeepsInv(START, events, w);
  }

  /** After a success, or a Configuration failure, no run calls the adapter's Initialize again. */
  lemma {:induction false} NeverCalledAgain(w: World, events: seq<Event>, w': World)
    requires Inv(w) && Run(w, events, w') && (Successes(w.answers) == 1 || SawFatal(w.answers))
    ensures w'.began == w.began && w'.answers == w.answers
    decreases |events|
  {
    if events != [] {
      StepKeepsInv(w, events[0]);
      NeverCalledAgain(Next(w, events[0]), events[1..], w');
    }
  }

  // ---- shutdown ----

  /** Once shut down with no Initialize under way, a runtime stays shut down and closes nothing more. */
  lemma {:induction false} ClosedStays(w: World, events: seq<Event>, w': World)
    requires w.life.state == Shutdown && !w.inFlight && Run(w, events, w')
    ensures w'.life.state == Shutdown && !w'.inFlight && w'.closing + w'.closed == w.closing + w.closed
    decreases |events|
  {
    if events != [] {
      ClosedStays(Next(w, events[0]), events[1..], w');
    }
  }

  lemma RunOne(w: World, e: Event)
    requires Enabled(w, e)
    ensures Run(w, [e], Next(w, e))
  {
    hide Next;
    var events, w' := [e], Next(w, e);
    assert events[0] == e && events[1..] == [] && Run(w', [], w');
  }

  /** SHUTDOWN is absorbing exactly when no Initialize is between its two critical sections as
      Shutdown locks: such an Initialize overwrites the state when it finishes. */
  lemma ShutdownAbsorbingIff(w: World)
    ensures (forall events, w' :: Run(Next(w, ShutdownLocks), events, w') ==> w'.life.state == Shutdown)
            <==> !w.inFlight
  {
    var down := Next(w, ShutdownLocks);
    if w.inFlight {
      RunOne(down, AdapterAnswers(Up));
      assert Next(down, AdapterAnswers(Up)).life.state == Ready;
    } else {
      forall events, w' | Run(down, events, w') ensures w'.life.state == Shutdown {
        ClosedStays(down, events, w');
      }
    }
  }

  /** After a shutdown that no Initialize was crossing, the adapter has been or is being closed once
      more and never again, and every read that passes its other checks is AlreadyClosed. */
  lemma CleanShutdown(w: World, events: seq<Event>, w': World, cfg: Config, req: Request, adapter: Adapter)
    requires w.life.state != Shutdown && !w.inFlight && Run(Next(w, ShutdownLocks), events, w')
    ensures w'.closing + w'.closed == w.closing + w.closed + 1
    ensures var e := Evaluate(cfg, w'.life.state, req, adapter);
            && e.asked == None
            && (Evaluate(cfg, Ready, req, adapter).asked.Some? ==>
                  e.decision == ErrorDecision(req.key, req.defaultValue, Error(AlreadyClosed, false)))
  {
    hide KeyValid, MatchesExpectedType, ValidateContext, Run;
    ClosedStays(Next(w, ShutdownLocks), events, w');
  }

  /** Every shutdown of the run locks while no Initialize is under way. */
  predicate CleanRun(w: World, events: seq<Event>)
    decreases |events|
  {
    events == [] ||
    (Enabled(w, events[0]) && (events[0] == ShutdownLocks ==> !w.inFlight) && CleanRun(Next(w, events[0]), events[1..]))
  }

  /** In such a run the adapter is closed once if shut down, and never otherwise. */
  lemma {:induction false} ClosedOnce(w: World, events: seq<Event>, w': World)
    requires Inv(w) && CleanRun(w, events) && Run(w, events, w')
    requires (w.life.state == Shutdown ==> !w.inFlight)
    requires w.closing + w.closed == if w.life.state == Shutdown then 1 else 0
    ensures w'.closing + w'.closed == if w'.life.state == Shutdown then 1 else 0
    decreases |events|
  {
    if events != [] {
      StepKeepsInv(w, events[0]);
      ClosedOnce(Next(w, events[0]), events[1..], w');
    }
  }

  /** Crossed by an Initialize, one runtime can be shut down, come back READY, and close its adapter twice. */
  lemma CrossedShutdownClosesTwice()
    returns (events: seq<Event>, w: World)
    ensures Run(START, events, w) && w.life.state == Ready && w.closed == 1
    ensures Run(w, [ShutdownLocks, AdapterCloses], w.(life := w.life.(state := Shutdown), closed := 2))
  {
    events := [Initialize, ShutdownLocks, AdapterAnswers(Up), AdapterCloses];
    w := World(Life(Ready, None), false, 1, [Up], 0, 1);
    var a := Next(START, Initialize);
    var b := Next(a, ShutdownLocks);
    var c := Next(b, AdapterAnswers(Up));
    assert [] + [Up] == [Up];
    assert Next(c, AdapterCloses) == w;
    assert events[1..] == [ShutdownLocks, AdapterAnswers(Up), AdapterCloses];
    assert events[1..][1..] == [AdapterAnswers(Up), AdapterCloses];
    assert events[1..][1..][1..] == [AdapterCloses];
    assert [AdapterCloses][1..] == [];
    assert Run(w, [], w) && Run(c, [AdapterCloses], w) && Run(b, events[1..][1..], w) && Run(a, events[1..], w);
    var d := Next(w, ShutdownLocks);
    assert [ShutdownLocks, AdapterCloses][1..] == [AdapterCloses];
    assert Run(Next(d, AdapterCloses), [], Next(d, AdapterCloses));
    assert Run(d, [AdapterCloses], Next(d, AdapterCloses));
  }
}
