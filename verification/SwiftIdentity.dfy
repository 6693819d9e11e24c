/** The operation chain under the app profile's identity changes, and the runs it outlives. */
module SwiftIdentity {
  import opened Optional

  type Generation = nat

  /** One queued identity change; a forget carries the id it will mint. */
  datatype Op = Identify(key: string) | Reset | Forget(minted: string)

  /** How far an operation's task is. It first waits for the boot of the run that is running as it starts,
      if one is. Then it looks: it finds a running client, and the generation and subject of its run, or it
      gives up. It changes that run once, or for a forget twice. */
  datatype Stage =
    | Queued
    | Started(awaits: Option<Generation>)
    | Reading(generation: Generation, subject: string)
    | Switched(generation: Generation)
    | Finished(acted: Option<Generation>)

  /** A run while it is the running one: its subject and current key, whether its client is installed, the
      subject it started with, and how many operations had been enqueued by then. */
  datatype Run = Run(generation: Generation, app: bool, booted: bool, subject: string, currentKey: string,
                     first: string, from: nat)

  /** The chain, which lives as long as the process: per operation its stage, and whether the tail task that
      waits for it is over; each operation's task awaits the tail before it. The running run, if there is
      one, and the latest generation. */
  datatype World = World(ops: seq<Op>, stages: seq<Stage>, tails: seq<bool>, run: Option<Run>, latest: Generation)

  const FIRST := World([], [], [], None, 0)

  /** The chain's mutable field: the task the next operation must wait for. */
  class OperationChain {
    var tail: Option<nat>

    constructor ()
      ensures tail == None
    {
      tail := None;
    }

    /** Enqueues task `task`; it will await `previous`, and the new tail awaits it. */
    method Enqueue(task: nat) returns (previous: Option<nat>)
      modifies this
      ensures previous == old(tail) && tail == Some(task)
    {
      previous := tail;
      tail := Some(task);
    }
  }

  datatype Event =
    | Enqueue(op: Op)
    | Start(i: nat)
    | Look(i: nat)
    | Switch(i: nat)
    | Settle(i: nat)
    | TailEnds(i: nat)
    | RunBegins(app: bool, subject: string)
    | RunBoots
    | RunEnds

  /** The run whose boot is awaited is running and still boots. */
  predicate Booting(w: World, awaits: Option<Generation>) {
    w.run.Some? && !w.run.value.booted && awaits == Some(w.run.value.generation)
  }

  predicate Enabled(w: World, e: Event)
    requires |w.stages| == |w.ops| == |w.tails|
  {
    match e
    case Enqueue(_) => true
    case Start(i) => i < |w.ops| && w.stages[i].Queued? && (i == 0 || w.tails[i - 1])
    case Look(i) => i < |w.ops| && w.stages[i].Started? && !Booting(w, w.stages[i].awaits)
    case Switch(i) => i < |w.ops| && w.stages[i].Reading? && w.ops[i].Forget?
    case Settle(i) => i < |w.ops| && (if w.ops[i].Forget? then w.stages[i].Switched? else w.stages[i].Reading?)
    case TailEnds(i) => i < |w.ops| && w.stages[i].Finished? && !w.tails[i]
    case RunBegins(_, _) => w.run.None?
    case RunBoots => w.run.Some? && !w.run.value.booted
    case RunEnds => true
  }

  /** The key the operation settles on. */
  function KeyOf(op: Op, seen: string): string {
    match op
    case Identify(key) => key
    case Reset => seen
    case Forget(minted) => minted
  }

  /** What an operation sees once it no longer waits: only an app's run can be forgotten. */
  function Seen(run: Option<Run>, op: Op): Stage {
    if run.Some? && run.value.booted && (op.Forget? ==> run.value.app) then
      Reading(run.value.generation, run.value.subject)
    else Finished(None)
  }

  /** An update of the run of generation `g`, if that is still the running one. */
  predicate Current(w: World, g: Generation) { w.run.Some? && w.run.value.generation == g }

  function Next(w: World, e: Event): World
    requires |w.stages| == |w.ops| == |w.tails| && Enabled(w, e)
  {
    match e
    case Enqueue(op) => w.(ops := w.ops + [op], stages := w.stages + [Queued], tails := w.tails + [false])
    case Start(i) => w.(stages := w.stages[i := Started(if w.run.Some? then Some(w.run.value.generation) else None)])
    case Look(i) => w.(stages := w.stages[i := Seen(w.run, w.ops[i])])
    case Switch(i) =>
      var g := w.stages[i].generation;
      w.(stages := w.stages[i := Switched(g)],
         run := if Current(w, g) then Some(w.run.value.(subject := w.ops[i].minted)) else w.run)
    case Settle(i) =>
      var g := w.stages[i].generation;
      var seen := if w.stages[i].Reading? then w.stages[i].subject else "";
      w.(stages := w.stages[i := Finished(Some(g))],
         run := if Current(w, g) then Some(w.run.value.(currentKey := KeyOf(w.ops[i], seen))) else w.run)
    case TailEnds(i) => w.(tails := w.tails[i := true])
    case RunBegins(app, subject) =>
      w.(run := Some(Run(w.latest + 1, app, false, subject, subject, subject, |w.ops|)), latest := w.latest + 1)
    case RunBoots => w.(run := Some(w.run.value.(booted := true)))
    case RunEnds => w.(run := None)
  }

  predicate Runs(w: World, events: seq<Event>, w': World)
    decreases |events|
  {
    if events == [] then w == w'
    else |w.stages| == |w.ops| == |w.tails| && Enabled(w, events[0]) && Runs(Next(w, events[0]), events[1..], w')
  }

  // ---- the chain ----

  predicate Active(s: Stage) { s.Started? || s.Reading? || s.Switched? }

  /** Everything before an operation that has started is over, and tails end after their operation. */
  ghost predicate ChainInv(w: World) {
    && |w.stages| == |w.ops| == |w.tails|
    && (forall i :: 0 <= i < |w.ops| && w.tails[i] ==> w.stages[i].Finished?)
    && (forall i, j :: 0 <= i < j < |w.ops| && !w.stages[j].Queued? ==> w.stages[i].Finished? && w.tails[i])
    && (forall i :: 0 <= i < |w.ops| && w.stages[i].Switched? ==> w.ops[i].Forget?)
  }

  lemma ChainStep(w: World, e: Event)
    requires ChainInv(w) && Enabled(w, e)
    ensures ChainInv(Next(w, e))
  {
    hide KeyOf, Booting;
    match e {
      case Enqueue(op) => EnqueueChain(w, op);
      case Start(i) => StageChain(w, Next(w, e), i);
      case Look(i) => StageChain(w, Next(w, e), i);
      case Switch(i) => StageChain(w, Next(w, e), i);
      case Settle(i) => StageChain(w, Next(w, e), i);
      case TailEnds(i) => TailChain(w, i);
      case RunBegins(_, _) =>
      case RunBoots =>
      case RunEnds =>
    }
  }

  lemma EnqueueChain(w: World, op: Op)
    requires ChainInv(w)
    ensures ChainInv(Next(w, Enqueue(op)))
  {
  }

  lemma TailChain(w: World, i: nat)
    requires ChainInv(w) && Enabled(w, TailEnds(i))
    ensures ChainInv(Next(w, TailEnds(i)))
  {
  }

  /** One operation moves on; those before it are over, or it could not have begun. */
  lemma StageChain(w: World, w': World, i: nat)
    requires ChainInv(w) && i < |w.ops| && w'.ops == w.ops && w'.tails == w.tails && |w'.stages| == |w.stages|
    requires !w.stages[i].Finished? && w'.stages == w.stages[i := w'.stages[i]]
    requires w.stages[i].Queued? ==> i == 0 || w.tails[i - 1]
    requires w'.stages[i].Switched? ==> w.ops[i].Forget?
    ensures ChainInv(w')
  {
    forall k, j | 0 <= k < j < |w.ops| && !w'.stages[j].Queued?
      ensures w'.stages[k].Finished? && w'.tails[k]
    {
      if j == i && w.stages[i].Queued? && k < i - 1 {
        assert w.stages[i - 1].Finished?;
      }
    }
  }

  lemma {:induction false} RunKeepsChain(w: World, events: seq<Event>, w': World)
    requires ChainInv(w) && Runs(w, events, w')
    ensures ChainInv(w')
    decreases |events|
  {
    hide ChainInv, Next, Enabled;
    if events != [] {
      ChainStep(w, events[0]);
      RunKeepsChain(Next(w, events[0]), events[1..], w');
    }
  }

  /** In every process operations go one at a time, in the order they were enqueued, across runs too: while
      one is under way, all earlier ones are over and no later one has begun. */
  lemma OneAtATime(events: seq<Event>, w: World, i: nat, j: nat)
    requires Runs(FIRST, events, w)
    requires i < |w.ops| == |w.stages| && j < |w.ops| && Active(w.stages[i])
    ensures j < i ==> w.stages[j].Finished?
    ensures j > i ==> w.stages[j].Queued?
  {
    RunKeepsChain(FIRST, events, w);
  }

  // ---- progress ----

  predicate ChainEvent(e: Event) { !e.Enqueue? && !e.RunBegins? && !e.RunEnds? }

  /** While an operation is not over, the chain can take some step, or the running run can boot. */
  lemma NextStep(w: World, i: nat) returns (e: Event)
    requires ChainInv(w) && i < |w.ops| && !w.stages[i].Finished?
    ensures Enabled(w, e) && ChainEvent(e)
    decreases i
  {
    if w.stages[i].Started? {
      e := if Booting(w, w.stages[i].awaits) then RunBoots else Look(i);
    } else if w.stages[i].Switched? {
      e := Settle(i);
    } else if w.stages[i].Reading? {
      e := if w.ops[i].Forget? then Switch(i) else Settle(i);
    } else if i == 0 || w.tails[i - 1] {
      e := Start(i);
    } else if w.stages[i - 1].Finished? {
      e := TailEnds(i - 1);
    } else {
      e := NextStep(w, i - 1);
    }
  }

  function StepsLeft(s: Stage, tailOver: bool): nat {
    (match s case Queued => 4 case Started(_) => 3 case Reading(_, _) => 2 case Switched(_) => 1 case Finished(_) => 0)
    + if tailOver then 0 else 1
  }

  /** How many steps the operations in the chain can still take. */
  function Pending(stages: seq<Stage>, tails: seq<bool>): nat
    requires |stages| == |tails|
  {
    if stages == [] then 0
    else
      var n := |stages| - 1;
      Pending(stages[..n], tails[..n]) + StepsLeft(stages[n], tails[n])
  }

  function BootLeft(w: World): nat { if w.run.Some? && !w.run.value.booted then 1 else 0 }

  lemma {:induction false} PendingUpdate(stages: seq<Stage>, tails: seq<bool>, i: nat, s: Stage, t: bool)
    requires |stages| == |tails| && i < |stages|
    ensures Pending(stages[i := s], tails[i := t])
            == Pending(stages, tails) - StepsLeft(stages[i], tails[i]) + StepsLeft(s, t)
    decreases |stages|
  {
    hide StepsLeft;
    var n := |stages| - 1;
    if i < n {
      PendingUpdate(stages[..n], tails[..n], i, s, t);
      assert stages[i := s][..n] == stages[..n][i := s] && tails[i := t][..n] == tails[..n][i := t];
    } else {
      assert stages[i := s][..n] == stages[..n] && tails[i := t][..n] == tails[..n];
    }
  }

  lemma StepWorksOff(w: World, e: Event)
    requires ChainInv(w) && Enabled(w, e) && ChainEvent(e)
    ensures var w' := Next(w, e);
            && w'.ops == w.ops && |w'.stages| == |w.stages| == |w'.tails|
            && Pending(w'.stages, w'.tails) + BootLeft(w') < Pending(w.stages, w.tails) + BootLeft(w)
  {
    hide Pending, KeyOf;
    if !e.RunBoots? {
      var w', i := Next(w, e), e.i;
      PendingUpdate(w.stages, w.tails, i, w'.stages[i], w'.tails[i]);
      assert w'.stages == w.stages[i := w'.stages[i]] && w'.tails == w.tails[i := w'.tails[i]];
    }
  }

  predicate Drained(w: World) { forall i :: 0 <= i < |w.stages| ==> w.stages[i].Finished? }

  lemma Drain(w: World) returns (more: seq<Event>, w': World)
    requires ChainInv(w)
    ensures Runs(w, more, w') && Drained(w') && w'.ops == w.ops && |more| <= Pending(w.stages, w.tails) + BootLeft(w)
    ensures forall e :: e in more ==> ChainEvent(e)
    decreases Pending(w.stages, w.tails) + BootLeft(w)
  {
    hide Pending, BootLeft, Next, Enabled, ChainEvent;
    if Drained(w) {
      more, w' := [], w;
    } else {
      var i :| 0 <= i < |w.stages| && !w.stages[i].Finished?;
      var e := NextStep(w, i);
      StepWorksOff(w, e);
      ChainStep(w, e);
      more, w' := Drain(Next(w, e));
      more := [e] + more;
    }
  }

  lemma {:induction false} PendingBound(stages: seq<Stage>, tails: seq<bool>)
    requires |stages| == |tails|
    ensures Pending(stages, tails) <= 5 * |stages|
    decreases |stages|
  {
    if stages != [] {
      PendingBound(stages[..|stages| - 1], tails[..|stages| - 1]);
    }
  }

  /** Every process can be continued until every operation enqueued so far is over, in at most five steps an
      operation and the boot of the running run, without a new operation or run: the chain cannot get stuck. */
  lemma ChainNeverStuck(events: seq<Event>, w: World) returns (more: seq<Event>, w': World)
    requires Runs(FIRST, events, w)
    ensures Runs(w, more, w') && w'.ops == w.ops && Drained(w') && |more| <= 5 * |w.ops| + 1
    ensures forall e :: e in more ==> ChainEvent(e)
  {
    RunKeepsChain(FIRST, events, w);
    more, w' := Drain(w);
    PendingBound(w.stages, w.tails);
  }

  // ---- the running run ----

  /** Subject and key after the operations one after another. */
  function Applied(ops: seq<Op>, subject: string, key: string): (string, string) {
    if ops == [] then (subject, key)
    else
      var n := |ops| - 1;
      var (s, k) := Applied(ops[..n], subject, key);
      match ops[n]
      case Identify(t) => (s, t)
      case Reset => (s, s)
      case Forget(m) => (m, m)
  }

  /** Of the first `n` operations, those that acted on the run of generation `g`. */
  function Acted(ops: seq<Op>, stages: seq<Stage>, n: nat, g: Generation): seq<Op>
    requires n <= |ops| == |stages|
  {
    if n == 0 then [] else Acted(ops, stages, n - 1, g) + if stages[n - 1] == Finished(Some(g)) then [ops[n - 1]] else []
  }

  lemma {:induction false} ActedSame(ops: seq<Op>, stages: seq<Stage>, ops': seq<Op>, stages': seq<Stage>,
                                     n: nat, g: Generation)
    requires n <= |ops| == |stages| && n <= |ops'| == |stages'|
    requires forall i :: 0 <= i < n ==> ops[i] == ops'[i] && stages[i] == stages'[i]
    ensures Acted(ops, stages, n, g) == Acted(ops', stages', n, g)
  {
    if n > 0 { ActedSame(ops, stages, ops', stages', n - 1, g); }
  }

  lemma {:induction false} NobodyActed(ops: seq<Op>, stages: seq<Stage>, n: nat, g: Generation)
    requires n <= |ops| == |stages| && forall i :: 0 <= i < n ==> stages[i] != Finished(Some(g))
    ensures Acted(ops, stages, n, g) == []
  {
    if n > 0 { NobodyActed(ops, stages, n - 1, g); }
  }

  /** The operation under way, or the next one. */
  function Done(w: World): nat {
    DoneFrom(w.stages)
  }

  function DoneFrom(stages: seq<Stage>): (n: nat)
    ensures n <= |stages| && forall i :: 0 <= i < n ==> stages[i].Finished?
    ensures n < |stages| ==> !stages[n].Finished?
  {
    if stages == [] || !stages[0].Finished? then 0 else 1 + DoneFrom(stages[1..])
  }

  lemma DoneIs(stages: seq<Stage>, n: nat)
    requires n <= |stages| && (forall i :: 0 <= i < n ==> stages[i].Finished?)
    requires n < |stages| ==> !stages[n].Finished?
    ensures DoneFrom(stages) == n
  {
  }

  /** The generation a stage names is one that has begun. */
  predicate Begun(s: Stage, latest: Generation) {
    match s
    case Queued => true
    case Started(g) => g.Some? ==> g.value <= latest
    case Reading(g, _) => g <= latest
    case Switched(g) => g <= latest
    case Finished(g) => g.Some? ==> g.value <= latest
  }

  predicate AllBegun(w: World) {
    && (forall i :: 0 <= i < |w.stages| ==> Begun(w.stages[i], w.latest))
    && (w.run.Some? ==> w.run.value.generation == w.latest)
  }

  /** The running run's fields are those of the operations that acted on it, in order, except that a forget
      under way may have switched the subject already. */
  ghost predicate FieldsInv(w: World)
    requires |w.stages| == |w.ops|
  {
    w.run.Some? ==>
      var r, n := w.run.value, Done(w);
      var (s, k) := Applied(Acted(w.ops, w.stages, n, r.generation), r.first, r.first);
      && r.currentKey == k
      && r.subject == (if n < |w.ops| && w.stages[n] == Switched(r.generation) && w.ops[n].Forget? then w.ops[n].minted
                       else s)
      && (n < |w.ops| && w.stages[n].Reading? && w.stages[n].generation == r.generation ==> w.stages[n].subject == s)
  }

  /** An operation enqueued since the app run `g` began waits for it, acts on it, or has acted on it. */
  predicate On(s: Stage, g: Generation) {
    match s
    case Queued => true
    case Started(a) => a == Some(g)
    case Reading(h, _) => h == g
    case Switched(h) => h == g
    case Finished(a) => a == Some(g)
  }

  predicate SinceInv(w: World)
    requires |w.stages| == |w.ops|
  {
    w.run.Some? ==>
      && w.run.value.from <= |w.ops|
      && (w.run.value.app ==> forall i :: w.run.value.from <= i < |w.ops| ==> On(w.stages[i], w.run.value.generation))
  }

  ghost predicate RunInv(w: World) { ChainInv(w) && AllBegun(w) && FieldsInv(w) && SinceInv(w) }

  lemma BegunStep(w: World, e: Event)
    requires |w.stages| == |w.ops| == |w.tails| && AllBegun(w) && Enabled(w, e)
    ensures AllBegun(Next(w, e))
  {
    hide KeyOf, Booting;
  }

  lemma SinceStep(w: World, e: Event)
    requires ChainInv(w) && SinceInv(w) && Enabled(w, e)
    ensures |Next(w, e).stages| == |Next(w, e).ops| && SinceInv(Next(w, e))
  {
    hide KeyOf, ChainInv;
    assert |w.stages| == |w.ops| == |w.tails| by { SameLengths(w); }
  }

  lemma SameLengths(w: World)
    requires ChainInv(w)
    ensures |w.stages| == |w.ops| == |w.tails|
  {
  }

  /** The operation under way is the first that is not over. */
  lemma UnderWay(w: World, i: nat)
    requires ChainInv(w) && i < |w.ops| && Active(w.stages[i])
    ensures Done(w) == i
    ensures forall j :: i < j < |w.ops| ==> w.stages[j].Queued?
  {
    hide DoneFrom;
    DoneIs(w.stages, i);
  }

  lemma NextInLine(w: World, i: nat)
    requires ChainInv(w) && Enabled(w, Start(i))
    ensures Done(w) == i
  {
    hide DoneFrom;
    DoneIs(w.stages, i);
  }

  /** An operation that only waits, or looks at the run, changes nothing for it. */
  lemma FieldsStay(w: World, w': World, i: nat)
    requires ChainInv(w) && FieldsInv(w) && i == Done(w) < |w.ops| && (w.stages[i].Queued? || w.stages[i].Started?)
    requires w'.ops == w.ops && w'.run == w.run && |w'.stages| == |w.stages| && w'.stages == w.stages[i := w'.stages[i]]
    requires w'.stages[i].Started? || (w'.stages[i].Reading? && w.run.Some? && w'.stages[i].subject == w.run.value.subject)
    ensures FieldsInv(w')
  {
    hide Applied, Acted, DoneFrom;
    DoneIs(w'.stages, i);
    if w.run.Some? { ActedSame(w.ops, w.stages, w'.ops, w'.stages, i, w.run.value.generation); }
  }

  lemma AppliedStep(acts: seq<Op>, op: Op, subject: string, key: string)
    ensures var (s, k) := Applied(acts, subject, key);
            Applied(acts + [op], subject, key) ==
            match op case Identify(t) => (s, t) case Reset => (s, s) case Forget(m) => (m, m)
  {
    assert (acts + [op])[..|acts|] == acts;
  }

  lemma LookStep(w: World, i: nat)
    requires RunInv(w) && Enabled(w, Look(i))
    ensures FieldsInv(Next(w, Look(i)))
  {
    hide Applied, Acted, DoneFrom, Booting, AllBegun, SinceInv;
    UnderWay(w, i);
    var w' := Next(w, Look(i));
    if w'.stages[i].Reading? {
      FieldsStay(w, w', i);
    } else {
      OneMoreDone(w, w', i);
    }
  }

  /** An operation that ends without having acted on the running run changes nothing for it. */
  lemma OneMoreDone(w: World, w': World, i: nat)
    requires ChainInv(w) && FieldsInv(w) && i < |w.ops| && Active(w.stages[i])
    requires w'.ops == w.ops && w'.run == w.run && |w'.stages| == |w.stages| && w'.stages == w.stages[i := w'.stages[i]]
    requires w'.stages[i].Finished?
    requires w.run.Some? ==>
               var g := w.run.value.generation; w'.stages[i] != Finished(Some(g)) && w.stages[i] != Switched(g)
    ensures FieldsInv(w')
  {
    hide Applied, DoneFrom;
    UnderWay(w, i);
    DoneIs(w'.stages, i + 1);
    if w.run.Some? {
      var g := w.run.value.generation;
      ActedSame(w.ops, w.stages, w'.ops, w'.stages, i, g);
      assert Acted(w'.ops, w'.stages, i + 1, g) == Acted(w.ops, w.stages, i, g);
    }
  }

  lemma SwitchStep(w: World, i: nat)
    requires RunInv(w) && Enabled(w, Switch(i))
    ensures FieldsInv(Next(w, Switch(i)))
  {
    hide Applied, Acted, DoneFrom;
    UnderWay(w, i);
    var w' := Next(w, Switch(i));
    DoneIs(w'.stages, i);
    if w.run.Some? { ActedSame(w.ops, w.stages, w'.ops, w'.stages, i, w.run.value.generation); }
  }

  lemma SettleStep(w: World, i: nat)
    requires RunInv(w) && Enabled(w, Settle(i))
    ensures FieldsInv(Next(w, Settle(i)))
  {
    hide Applied, DoneFrom, AllBegun, SinceInv;
    UnderWay(w, i);
    var w', g := Next(w, Settle(i)), w.stages[i].generation;
    if Current(w, g) {
      DoneIs(w'.stages, i + 1);
      ActedSame(w.ops, w.stages, w'.ops, w'.stages, i, g);
      AppliedStep(Acted(w.ops, w.stages, i, g), w.ops[i], w.run.value.first, w.run.value.first);
    } else {
      OneMoreDone(w, w', i);
    }
  }

  /** Nobody has acted on a run that begins, and nobody under way has looked at it. */
  lemma BeginStep(w: World, app: bool, subject: string)
    requires ChainInv(w) && AllBegun(w) && w.run.None?
    ensures FieldsInv(Next(w, RunBegins(app, subject)))
  {
    hide DoneFrom;
    var w', n := Next(w, RunBegins(app, subject)), Done(w);
    forall i | 0 <= i < n ensures w.stages[i] != Finished(Some(w'.latest)) { assert Begun(w.stages[i], w.latest); }
    NobodyActed(w.ops, w.stages, n, w'.latest);
    if n < |w.stages| { assert Begun(w.stages[n], w.latest); }
  }

  lemma EnqueueStep(w: World, op: Op)
    requires ChainInv(w) && FieldsInv(w)
    ensures FieldsInv(Next(w, Enqueue(op)))
  {
    hide Applied, Acted, DoneFrom;
    var w', n := Next(w, Enqueue(op)), Done(w);
    DoneIs(w'.stages, n);
    if w.run.Some? { ActedSame(w.ops, w.stages, w'.ops, w'.stages, n, w.run.value.generation); }
  }

  lemma RunStep(w: World, e: Event)
    requires RunInv(w) && Enabled(w, e)
    ensures RunInv(Next(w, e))
  {
    hide Applied, Acted, DoneFrom, Booting, AllBegun, SinceInv;
    ChainStep(w, e);
    BegunStep(w, e);
    SinceStep(w, e);
    match e {
      case Enqueue(op) => EnqueueStep(w, op);
      case Start(i) =>
        NextInLine(w, i);
        FieldsStay(w, Next(w, e), i);
      case Look(i) => LookStep(w, i);
      case Switch(i) => SwitchStep(w, i);
      case Settle(i) => SettleStep(w, i);
      case TailEnds(i) =>
      case RunBegins(app, subject) => BeginStep(w, app, subject);
      case RunBoots =>
      case RunEnds =>
    }
  }

  lemma {:induction false} RunKeepsInv(w: World, events: seq<Event>, w': World)
    requires RunInv(w) && Runs(w, events, w')
    ensures RunInv(w')
    decreases |events|
  {
    hide RunInv, Next, Enabled;
    if events != [] {
      RunStep(w, events[0]);
      RunKeepsInv(Next(w, events[0]), events[1..], w');
    }
  }

  lemma FirstInv()
    ensures RunInv(FIRST)
  {
  }

  /** In every process, across runs: once the chain has drained, the running run's subject and key are those of
      the operations that acted on it, one after another from the subject it started with. Operations of an
      earlier run that were still under way may be among them; of the operations enqueued since an app run
      began, every one is. So if there is such an operation, the key is the one the last of them chose: the
      identified key, the minted id, or for a reset the subject then in force. */
  lemma LastIdentityWins(events: seq<Event>, w: World)
    requires Runs(FIRST, events, w) && w.run.Some? && Drained(w)
    ensures |w.ops| == |w.stages| && w.run.value.from <= |w.ops|
    ensures var r := w.run.value;
            && (r.subject, r.currentKey) == Applied(Acted(w.ops, w.stages, |w.ops|, r.generation), r.first, r.first)
            && (r.app ==> forall i :: r.from <= i < |w.ops| ==> w.stages[i] == Finished(Some(r.generation)))
            && (r.app && r.from < |w.ops| ==> r.currentKey == KeyOf(w.ops[|w.ops| - 1], r.subject))
  {
    hide DoneFrom, Applied;
    FirstInv();
    RunKeepsInv(FIRST, events, w);
    DoneIs(w.stages, |w.stages|);
    var r, n := w.run.value, |w.ops|;
    if r.app && r.from < n {
      assert On(w.stages[n - 1], r.generation);
      AppliedStep(Acted(w.ops, w.stages, n - 1, r.generation), w.ops[n - 1], r.first, r.first);
    }
  }
}
