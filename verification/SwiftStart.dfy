/** The Swift start core: starts, rejections, boots and shutdowns, each a critical
    section under one lock, in any interleaving. */
module SwiftStart {
  import opened Optional

  datatype Phase = NotStarted | Running | Failed | Shutdown

  datatype Profile = App | Server

  type Client = nat
  type Generation = nat

  /** What resolving the options gave, as far as the protocol depends on it. */
  datatype Config = Config(profile: Profile, signature: string, instanceId: Option<string>, refreshes: bool)

  datatype Run = Run(generation: Generation, config: Config, subject: string, currentKey: string,
                     client: Option<Client>, refresher: bool, failure: Option<string>)

  /** The fields guarded by the lock. */
  datatype Fields = Fields(phase: Phase, generation: Generation, run: Option<Run>, rejection: Option<string>,
                           instanceKeyCache: Option<string>)

  const FIRST := Fields(NotStarted, 0, None, None, None)

  datatype Outcome = Began(generation: Generation) | Kept | Thrown

  predicate ConflictsWithKey(s: Fields, c: Config) {
    c.profile == Server && c.instanceId.Some? && s.instanceKeyCache.Some? && s.instanceKeyCache != c.instanceId
  }

  /** The key the run's decisions are prefetched under: on a server the instance key. */
  function SubjectOf(s: Fields, c: Config, derived: string): string {
    if c.profile == App then derived
    else if c.instanceId.Some? then c.instanceId.value
    else if s.instanceKeyCache.Some? then s.instanceKeyCache.value
    else derived
  }

  function BeginRun(s: Fields, c: Config, derived: string): Fields {
    var subject := SubjectOf(s, c, derived);
    s.(phase := Running, generation := s.generation + 1, rejection := None,
       run := Some(Run(s.generation + 1, c, subject, subject, None, false, None)),
       instanceKeyCache := if c.profile == Server then Some(subject) else s.instanceKeyCache)
  }

  /** A start whose options resolved. `derived` is the device id or instance key it would mint. */
  function Begin(s: Fields, c: Config, derived: string): (Fields, Outcome) {
    if s.phase == Running && s.run.Some? then
      (s, if s.run.value.config.signature == c.signature || s.run.value.config.profile == App then Kept else Thrown)
    else if ConflictsWithKey(s, c) then (s, Thrown)
    else (BeginRun(s, c, derived), Began(s.generation + 1))
  }

  /** An app start whose options did not resolve. */
  function Reject(s: Fields, fault: string): Fields {
    if s.phase == Running then s
    else s.(generation := s.generation + 1, phase := Failed, run := None, rejection := Some(fault))
  }

  predicate IsCurrent(s: Fields, g: Generation) {
    s.phase == Running && s.run.Some? && s.run.value.generation == g
  }

  /** Boot `g` has built `client`: install it, or learn that it must shut it down. */
  function Install(s: Fields, g: Generation, client: Client): (Fields, bool) {
    if IsCurrent(s, g) then
      (s.(run := Some(s.run.value.(client := Some(client), refresher := s.run.value.config.refreshes))), true)
    else (s, false)
  }

  function FailBoot(s: Fields, g: Generation, failure: string): Fields {
    if IsCurrent(s, g) then s.(phase := Failed, run := Some(s.run.value.(failure := Some(failure)))) else s
  }

  /** New fields, and the client this shutdown must shut down. */
  function Stop(s: Fields): (Fields, Option<Client>) {
    if s.phase != Running && s.phase != Failed then (s, None)
    else
      (s.(generation := s.generation + 1, phase := Shutdown, rejection := None,
          run := if s.run.Some? then Some(s.run.value.(client := None, refresher := false)) else None),
       if s.run.Some? then s.run.value.client else None)
  }

  /** An identity operation's update, applied if its run is still the running one. */
  function Settle(s: Fields, g: Generation, subject: string, currentKey: string): Fields {
    if IsCurrent(s, g) then s.(run := Some(s.run.value.(subject := subject, currentKey := currentKey))) else s
  }

  /** The instance key a caller is given: the running app run's subject, else the key handed out so far,
      else the one derived now, which is remembered. */
  function HandKey(s: Fields, derived: string): (Fields, string) {
    if RunsApp(s) then (s, s.run.value.subject)
    else if s.instanceKeyCache.Some? then (s, s.instanceKeyCache.value)
    else (s.(instanceKeyCache := Some(derived)), derived)
  }

  predicate RunsApp(s: Fields) { s.phase == Running && s.run.Some? && s.run.value.config.profile == App }

  // ---- the code ----

  class StartCore {
    var phase: Phase
    var generation: Generation
    var run: Option<Run>
    var rejection: Option<string>
    var instanceKeyCache: Option<string>

    function Now(): Fields
      reads this
    {
      Fields(phase, generation, run, rejection, instanceKeyCache)
    }

    constructor ()
      ensures Now() == FIRST
    {
      phase, generation, run, rejection, instanceKeyCache := NotStarted, 0, None, None, None;
    }

    method BeginLocked(c: Config, derived: string) returns (outcome: Outcome)
      modifies this
      ensures (Now(), outcome) == Begin(old(Now()), c, derived)
    {
      if phase == Running && run.Some? {
        if run.value.config.signature == c.signature { return Kept; }
        return if run.value.config.profile == App then Kept else Thrown;
      }
      var subject := derived;
      if c.profile == Server {
        if c.instanceId.Some? && instanceKeyCache.Some? && instanceKeyCache != c.instanceId { return Thrown; }
        if c.instanceId.Some? {
          subject := c.instanceId.value;
        } else if instanceKeyCache.Some? {
          subject := instanceKeyCache.value;
        }
        instanceKeyCache := Some(subject);
      }
      generation := generation + 1;
      run := Some(Run(generation, c, subject, subject, None, false, None));
      phase, rejection := Running, None;
      outcome := Began(generation);
    }

    method RejectLocked(fault: string)
      modifies this
      ensures Now() == Reject(old(Now()), fault)
    {
      if phase == Running { return; }
      generation := generation + 1;
      phase, run, rejection := Failed, None, Some(fault);
    }

    method InstallLocked(g: Generation, client: Client) returns (installed: bool)
      modifies this
      ensures (Now(), installed) == Install(old(Now()), g, client)
    {
      if phase != Running || run.None? || run.value.generation != g { return false; }
      run := Some(run.value.(client := Some(client)));
      if run.value.config.refreshes { run := Some(run.value.(refresher := true)); }
      else { run := Some(run.value.(refresher := false)); }
      installed := true;
    }

    method FailLocked(g: Generation, failure: string)
      modifies this
      ensures Now() == FailBoot(old(Now()), g, failure)
    {
      if phase != Running || run.None? || run.value.generation != g { return; }
      phase := Failed;
      run := Some(run.value.(failure := Some(failure)));
    }

    method InstanceKey(derived: string) returns (key: string)
      modifies this
      ensures (Now(), key) == HandKey(old(Now()), derived)
    {
      if phase == Running && run.Some? && run.value.config.profile == App { return run.value.subject; }
      if instanceKeyCache.Some? { return instanceKeyCache.value; }
      instanceKeyCache := Some(derived);
      key := derived;
    }

    method ShutdownLocked() returns (client: Option<Client>)
      modifies this
      ensures (Now(), client) == Stop(old(Now()))
    {
      if phase != Running && phase != Failed { return None; }
      generation := generation + 1;
      client := if run.Some? then run.value.client else None;
      if run.Some? { run := Some(run.value.(client := None, refresher := false)); }
      rejection, phase := None, Shutdown;
    }
  }

  // ---- runs ----

  /** One boot task: making its client, holding it, or over. */
  datatype Boot = Building | Holding(client: Client) | Over

  /** The fields, the boot of every generation that began, how many clients were built, the clients
      handed to a shutdown, in order, and the instance keys given out while no app run was running. */
  datatype World = World(s: Fields, boots: map<Generation, Boot>, built: nat, handed: seq<Client>, keys: seq<string>)

  const START := World(FIRST, map[], 0, [], [])

  datatype Event =
    | Start(c: Config, derived: string)
    | Fault(fault: string)
    | ClientBuilt(g: Generation)
    | BootEnds(g: Generation)
    | BootThrows(g: Generation, failure: string)
    | ShutDown
    | IdentitySettles(g: Generation, subject: string, currentKey: string)
    | AskKey(derived: string)

  predicate Enabled(w: World, e: Event) {
    match e
    case ClientBuilt(g) => g in w.boots && w.boots[g].Building?
    case BootEnds(g) => g in w.boots && w.boots[g].Holding?
    case BootThrows(g, _) => g in w.boots && w.boots[g].Building?
    case _ => true
  }

  function Next(w: World, e: Event): World
    requires Enabled(w, e)
  {
    match e
    case Start(c, derived) =>
      var (s, outcome) := Begin(w.s, c, derived);
      w.(s := s, boots := if outcome.Began? then w.boots[outcome.generation := Building] else w.boots)
    case Fault(fault) => w.(s := Reject(w.s, fault))
    case ClientBuilt(g) => w.(boots := w.boots[g := Holding(w.built)], built := w.built + 1)
    case BootEnds(g) =>
      var (s, installed) := Install(w.s, g, w.boots[g].client);
      w.(s := s, boots := w.boots[g := Over],
         handed := if installed then w.handed else w.handed + [w.boots[g].client])
    case BootThrows(g, failure) => w.(s := FailBoot(w.s, g, failure), boots := w.boots[g := Over])
    case ShutDown =>
      var (s, client) := Stop(w.s);
      w.(s := s, handed := if client.Some? then w.handed + [client.value] else w.handed)
    case IdentitySettles(g, subject, currentKey) => w.(s := Settle(w.s, g, subject, currentKey))
    case AskKey(derived) =>
      var (s, key) := HandKey(w.s, derived);
      w.(s := s, keys := if RunsApp(w.s) then w.keys else w.keys + [key])
  }

  ghost predicate Reaches(w: World, events: seq<Event>, w': World)
    decreases |events|
  {
    if events == [] then w == w' else Enabled(w, events[0]) && Reaches(Next(w, events[0]), events[1..], w')
  }

  predicate Installed(w: World, c: Client) { w.s.run.Some? && w.s.run.value.client == Some(c) }

  predicate HeldBy(w: World, g: Generation, c: Client) { g in w.boots && w.boots[g] == Holding(c) }

  ghost predicate Held(w: World, c: Client) { exists g: Generation :: HeldBy(w, g, c) }

  predicate Handed(w: World, c: Client) { c in w.handed }

  /** Every client built is in exactly one place, and handed over at most once. */
  ghost predicate Accounted(w: World) {
    && (forall c: Client :: 0 <= c < w.built ==> Held(w, c) || Installed(w, c) || Handed(w, c))
    && (forall c: Client :: Held(w, c) ==> c < w.built && !Installed(w, c) && !Handed(w, c))
    && (forall c: Client :: Installed(w, c) ==> c < w.built && !Handed(w, c))
    && (forall c: Client :: Handed(w, c) ==> c < w.built)
    && (forall i, j :: 0 <= i < j < |w.handed| ==> w.handed[i] != w.handed[j])
    && (forall g: Generation, g': Generation, c: Client :: HeldBy(w, g, c) && HeldBy(w, g', c) ==> g == g')
  }

  /** The running run is the current generation's, and has its client exactly when its boot is over. */
  predicate RunningRun(w: World) {
    && w.s.run.Some? && w.s.run.value.generation == w.s.generation && w.s.generation in w.boots
    && (w.s.run.value.client.Some? <==> w.boots[w.s.generation].Over?)
  }

  /** How phase, run and boots belong together. */
  predicate Consistent(w: World) {
    && (w.s.phase == Running ==> RunningRun(w))
    && (w.s.phase != Running && w.s.run.Some? ==> w.s.run.value.client.None? && !w.s.run.value.refresher)
    && (w.s.run.Some? && w.s.run.value.refresher ==> w.s.run.value.client.Some?)
    && (forall g :: g in w.boots ==> 0 < g <= w.s.generation)
    && (w.s.phase == NotStarted ==> w.s.run.None?)
  }

  ghost predicate Inv(w: World) { Accounted(w) && Consistent(w) }

  // Clients move one at a time; each move keeps the account.

  lemma BuiltAccounted(w: World, g: Generation)
    requires Inv(w) && Enabled(w, ClientBuilt(g))
    ensures Accounted(Next(w, ClientBuilt(g)))
  {
    var w' := Next(w, ClientBuilt(g));
    assert HeldBy(w', g, w.built);
    forall c: Client | 0 <= c < w'.built ensures Held(w', c) || Installed(w', c) || Handed(w', c) {
      if c < w.built {
        if Held(w, c) {
          var g1: Generation :| HeldBy(w, g1, c);
          assert HeldBy(w', g1, c);
        } else if Handed(w, c) {
          assert Handed(w', c);
        }
      }
    }
    forall c: Client | Held(w', c) ensures c < w'.built && !Installed(w', c) && !Handed(w', c) {
      var g1: Generation :| HeldBy(w', g1, c);
      if g1 != g { assert HeldBy(w, g1, c) && Held(w, c); }
      assert Installed(w', c) == Installed(w, c) && Handed(w', c) == Handed(w, c);
    }
    forall c: Client | Installed(w', c) ensures c < w'.built && !Handed(w', c) { assert Installed(w, c); }
    forall c: Client | Handed(w', c) ensures c < w'.built { assert Handed(w, c); }
    forall g1: Generation, g2: Generation, c: Client | HeldBy(w', g1, c) && HeldBy(w', g2, c) ensures g1 == g2 {
      if g1 != g && g2 != g {
        assert HeldBy(w, g1, c) && HeldBy(w, g2, c);
      } else if g1 != g {
        assert HeldBy(w, g1, c) && Held(w, c);
      } else if g2 != g {
        assert HeldBy(w, g2, c) && Held(w, c);
      }
    }
  }

  /** A boot that ends lets go of its client, to the run or to a shutdown. */
  lemma EndAccounted(w: World, g: Generation)
    requires Inv(w) && Enabled(w, BootEnds(g))
    ensures Accounted(Next(w, BootEnds(g)))
  {
    var w', moved := Next(w, BootEnds(g)), w.boots[g].client;
    assert HeldBy(w, g, moved) && Held(w, moved);
    HandOver(w.handed, moved);
    forall c: Client | 0 <= c < w'.built ensures Held(w', c) || Installed(w', c) || Handed(w', c) {
      if c == moved {
      } else if Held(w, c) {
        var g1: Generation :| HeldBy(w, g1, c);
        assert HeldBy(w', g1, c);
      }
    }
    forall c: Client | Held(w', c) ensures c < w'.built && !Installed(w', c) && !Handed(w', c) {
      var g1: Generation :| HeldBy(w', g1, c);
      assert HeldBy(w, g1, c) && Held(w, c) && !Installed(w, c) && !Handed(w, c);
    }
    forall c: Client | Installed(w', c) ensures c < w'.built && !Handed(w', c) {
      assert Installed(w, c) || Held(w, c);
    }
    forall c: Client | Handed(w', c) ensures c < w'.built { assert Handed(w, c) || Held(w, c) || Installed(w, c); }
    forall g1: Generation, g2: Generation, c: Client | HeldBy(w', g1, c) && HeldBy(w', g2, c) ensures g1 == g2 {
      assert HeldBy(w, g1, c) && HeldBy(w, g2, c);
    }
  }

  lemma StopAccounted(w: World)
    requires Inv(w)
    ensures Accounted(Next(w, ShutDown))
  {
    var w' := Next(w, ShutDown);
    if w.s.run.Some? && w.s.run.value.client.Some? {
      assert Installed(w, w.s.run.value.client.value);
      HandOver(w.handed, w.s.run.value.client.value);
    }
    forall g: Generation, c: Client ensures HeldBy(w', g, c) == HeldBy(w, g, c) {}
    forall c: Client | 0 <= c < w'.built ensures Held(w', c) || Installed(w', c) || Handed(w', c) {
      if Held(w, c) {
        var g1: Generation :| HeldBy(w, g1, c);
        assert HeldBy(w', g1, c);
      }
    }
    forall c: Client | Held(w', c) ensures c < w'.built && !Installed(w', c) && !Handed(w', c) {
      var g1: Generation :| HeldBy(w', g1, c);
      assert HeldBy(w, g1, c) && Held(w, c) && !Installed(w, c) && !Handed(w, c);
    }
    assert forall c: Client :: !Installed(w', c);
    forall c: Client | Handed(w', c) ensures c < w'.built { assert Handed(w, c) || Held(w, c) || Installed(w, c); }
    forall g1: Generation, g2: Generation, c: Client | HeldBy(w', g1, c) && HeldBy(w', g2, c) ensures g1 == g2 {
      assert HeldBy(w, g1, c) && HeldBy(w, g2, c);
    }
  }

  /** A client that is handed over was not handed over before. */
  lemma HandOver(handed: seq<Client>, c: Client)
    requires c !in handed && forall i, j :: 0 <= i < j < |handed| ==> handed[i] != handed[j]
    ensures var more := handed + [c];
            && (forall i, j :: 0 <= i < j < |more| ==> more[i] != more[j])
            && (forall d :: d in more <==> d in handed || d == c)
  {
  }

  /** Steps that move no client. */
  lemma SameAccounted(w: World, w': World)
    requires Accounted(w) && w'.built == w.built && w'.handed == w.handed
    requires forall c: Client :: Installed(w', c) == Installed(w, c)
    requires forall g: Generation, c: Client :: HeldBy(w', g, c) == HeldBy(w, g, c)
    ensures Accounted(w')
  {
    forall c: Client ensures Held(w', c) == Held(w, c) {
      if Held(w, c) { var g: Generation :| HeldBy(w, g, c); assert HeldBy(w', g, c); }
      if Held(w', c) { var g: Generation :| HeldBy(w', g, c); assert HeldBy(w, g, c); }
    }
    forall c: Client ensures Handed(w', c) == Handed(w, c) {}
  }

  lemma StepKeepsInv(w: World, e: Event)
    requires Inv(w) && Enabled(w, e)
    ensures Inv(Next(w, e))
  {
    match e {
      case ClientBuilt(g) => BuiltAccounted(w, g);
      case BootEnds(g) => EndAccounted(w, g);
      case ShutDown => StopAccounted(w);
      case _ => NothingMoves(w, e);
    }
    StepConsistent(w, e);
  }

  lemma NothingMoves(w: World, e: Event)
    requires Inv(w) && Enabled(w, e) && !e.ClientBuilt? && !e.BootEnds? && !e.ShutDown?
    ensures Accounted(Next(w, e))
  {
    hide Accounted, Held;
    var w' := Next(w, e);
    forall g: Generation, c: Client ensures HeldBy(w', g, c) == HeldBy(w, g, c) {}
    SameAccounted(w, w');
  }

  lemma StepConsistent(w: World, e: Event)
    requires Consistent(w) && Enabled(w, e)
    ensures Consistent(Next(w, e))
  {
  }

  lemma {:induction false} RunKeepsInv(w: World, events: seq<Event>, w': World)
    requires Inv(w) && Reaches(w, events, w')
    ensures Inv(w')
    decreases |events|
  {
    hide Inv;
    if events != [] {
      StepKeepsInv(w, events[0]);
      RunKeepsInv(Next(w, events[0]), events[1..], w');
    }
  }

  /** In every run each client ever built is held by exactly one boot, or installed in the running run,
      or was handed to exactly one shutdown; a phase other than running holds no client and no refresher. */
  lemma EveryClientInOnePlace(events: seq<Event>, w: World)
    requires Reaches(START, events, w)
    ensures forall c: Client :: 0 <= c < w.built ==>
              && (Held(w, c) || Installed(w, c) || Handed(w, c))
              && !(Held(w, c) && Installed(w, c)) && !(Held(w, c) && Handed(w, c)) && !(Installed(w, c) && Handed(w, c))
    ensures forall i, j :: 0 <= i < j < |w.handed| ==> w.handed[i] != w.handed[j]
    ensures w.s.phase != Running && w.s.run.Some? ==> w.s.run.value.client.None? && !w.s.run.value.refresher
  {
    RunKeepsInv(START, events, w);
  }

  /** In every run, only the boot of the current generation ever installs a client, and what it installs is
      the client it built. */
  lemma OnlyCurrentBootInstalls(events: seq<Event>, w: World, e: Event, c: Client)
    requires Reaches(START, events, w) && Enabled(w, e) && !Installed(w, c) && Installed(Next(w, e), c)
    ensures e.BootEnds? && e.g == w.s.generation && w.boots[e.g] == Holding(c)
  {
    RunKeepsInv(START, events, w);
  }

  /** A boot overtaken by a shutdown or a newer start never installs, in any continuation: the client it has
      built by then is handed to a shutdown and runs nowhere. */
  lemma {:induction false} OvertakenNeverInstalls(w: World, g: Generation, events: seq<Event>, w': World)
    requires Inv(w) && Reaches(w, events, w') && g in w.boots && !IsCurrent(w.s, g)
    ensures g in w'.boots && !IsCurrent(w'.s, g)
    ensures w'.boots[g].Holding? ==>
              var c, after := w'.boots[g].client, Next(w', BootEnds(g));
              after.s == w'.s && after.handed == w'.handed + [c] && !Installed(after, c)
    decreases |events|
  {
    hide Accounted;
    if events != [] {
      StepKeepsInv(w, events[0]);
      OvertakenNeverInstalls(Next(w, events[0]), g, events[1..], w');
    } else if w.boots[g].Holding? {
      HeldNotInstalled(w, g);
    }
  }

  lemma HeldNotInstalled(w: World, g: Generation)
    requires Inv(w) && g in w.boots && w.boots[g].Holding?
    ensures !Installed(w, w.boots[g].client)
  {
    assert HeldBy(w, g, w.boots[g].client) && Held(w, w.boots[g].client);
  }

  lemma NotHeld(w: World, c: Client)
    requires forall g :: g in w.boots ==> w.boots[g].Over?
    ensures !Held(w, c)
  {
  }

  /** Quiescence: with every boot over and nothing running, every client built has been handed to
      exactly one shutdown; none is left alive. */
  lemma NothingLeaks(events: seq<Event>, w: World)
    requires Reaches(START, events, w)
    requires w.s.phase != Running && forall g :: g in w.boots ==> w.boots[g].Over?
    ensures forall c: Client :: 0 <= c < w.built ==> Handed(w, c)
    ensures forall i, j :: 0 <= i < j < |w.handed| ==> w.handed[i] != w.handed[j]
  {
    RunKeepsInv(START, events, w);
    forall c: Client | 0 <= c < w.built ensures Handed(w, c) {
      NotHeld(w, c);
    }
  }

  // ---- the instance key ----

  /** Whatever was given out is the key in the cache, which a start under another id cannot replace. */
  ghost predicate KeyInv(w: World) { forall k :: k in w.keys ==> w.s.instanceKeyCache == Some(k) }

  lemma KeyStep(w: World, e: Event)
    requires Enabled(w, e)
    ensures w.s.instanceKeyCache.Some? ==> Next(w, e).s.instanceKeyCache == w.s.instanceKeyCache
    ensures KeyInv(w) ==> KeyInv(Next(w, e))
  {
    if e.Start? && w.s.instanceKeyCache.Some? {
      assert !ConflictsWithKey(w.s, e.c) && e.c.profile == Server
             ==> SubjectOf(w.s, e.c, e.derived) == w.s.instanceKeyCache.value;
    }
  }

  /** The instance key, once chosen by a server start or a caller, is the same in every continuation:
      through failed, shut down and restarted runs of either profile. */
  lemma {:induction false} InstanceKeyNeverChanges(w: World, events: seq<Event>, w': World)
    requires Reaches(w, events, w') && w.s.instanceKeyCache.Some?
    ensures w'.s.instanceKeyCache == w.s.instanceKeyCache
    decreases |events|
  {
    hide Next, Enabled;
    if events != [] {
      KeyStep(w, events[0]);
      InstanceKeyNeverChanges(Next(w, events[0]), events[1..], w');
    }
  }

  lemma {:induction false} RunKeepsKeys(w: World, events: seq<Event>, w': World)
    requires Reaches(w, events, w') && KeyInv(w)
    ensures KeyInv(w')
    decreases |events|
  {
    hide Next, Enabled, KeyInv;
    if events != [] {
      KeyStep(w, events[0]);
      RunKeepsKeys(Next(w, events[0]), events[1..], w');
    }
  }

  /** In every run all instance keys given out while no app run is running are the same one. */
  lemma OneInstanceKey(events: seq<Event>, w: World)
    requires Reaches(START, events, w)
    ensures forall i, j :: 0 <= i < |w.keys| && 0 <= j < |w.keys| ==> w.keys[i] == w.keys[j]
    ensures forall k :: k in w.keys ==> w.s.instanceKeyCache == Some(k)
  {
    RunKeepsKeys(START, events, w);
    forall i, j | 0 <= i < |w.keys| && 0 <= j < |w.keys| ensures w.keys[i] == w.keys[j] {
      assert w.keys[i] in w.keys && w.keys[j] in w.keys;
    }
  }
}
