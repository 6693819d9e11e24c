/** The Swift one-shot gate: every waiter is released once, none is lost. */
module SwiftLocking {
  type Waiter = nat

  /** The gate, the continuations about to be resumed, those resumed, and how many waits began. */
  datatype Gate = Gate(isOpen: bool, waiters: seq<Waiter>, due: seq<Waiter>, resumed: seq<Waiter>, began: nat)

  const CLOSED := Gate(false, [], [], [], 0)

  datatype GateEvent = Opens | Waits | Resumes(i: nat)

  predicate GateEnabled(g: Gate, e: GateEvent) { e.Resumes? ==> e.i < |g.due| }

  function GateNext(g: Gate, e: GateEvent): Gate
    requires GateEnabled(g, e)
  {
    match e
    case Opens => if g.isOpen then g else g.(isOpen := true, waiters := [], due := g.due + g.waiters)
    case Waits =>
      if g.isOpen then g.(due := g.due + [g.began], began := g.began + 1)
      else g.(waiters := g.waiters + [g.began], began := g.began + 1)
    case Resumes(i) => g.(due := g.due[..i] + g.due[i + 1..], resumed := g.resumed + [g.due[i]])
  }

  /** Opens once; the lock guards both fields, continuations are resumed outside it. */
  class OneShotGate {
    var isOpen: bool
    var waiters: seq<Waiter>

    constructor ()
      ensures !isOpen && waiters == []
    {
      isOpen, waiters := false, [];
    }

    method OpenLocked() returns (released: seq<Waiter>)
      modifies this
      ensures var g := GateNext(Gate(old(isOpen), old(waiters), [], [], 0), Opens);
              isOpen == g.isOpen && waiters == g.waiters && released == g.due
    {
      if isOpen { return []; }
      isOpen := true;
      released := waiters;
      waiters := [];
    }

    method WaitLocked(w: Waiter) returns (resumeNow: bool)
      modifies this
      ensures var g := GateNext(Gate(old(isOpen), old(waiters), [], [], w), Waits);
              isOpen == g.isOpen && waiters == g.waiters && (resumeNow <==> g.due == [w])
    {
      if isOpen { return true; }
      waiters := waiters + [w];
      resumeNow := false;
    }
  }

  predicate GateRun(g: Gate, events: seq<GateEvent>, g': Gate)
    decreases |events|
  {
    if events == [] then g == g' else GateEnabled(g, events[0]) && GateRun(GateNext(g, events[0]), events[1..], g')
  }

  /** Every wait that began is in exactly one of the three lists, exactly once. */
  ghost predicate GateInv(g: Gate) {
    && (g.isOpen ==> g.waiters == [])
    && (!g.isOpen ==> g.due == [] && g.resumed == [])
    && CountedOnce(All(g), g.began)
  }

  ghost function All(g: Gate): multiset<Waiter> { multiset(g.waiters) + multiset(g.due) + multiset(g.resumed) }

  ghost predicate CountedOnce(all: multiset<Waiter>, n: nat) {
    forall w: Waiter :: all[w] == if w < n then 1 else 0
  }

  lemma OneMore(all: multiset<Waiter>, n: nat)
    requires CountedOnce(all, n)
    ensures CountedOnce(all + multiset{n}, n + 1)
  {
  }

  lemma TakeOut(s: seq<Waiter>, i: nat)
    requires i < |s|
    ensures multiset(s) == multiset(s[..i] + s[i + 1..]) + multiset{s[i]}
  {
    assert s == s[..i] + [s[i]] + s[i + 1..];
  }

  lemma WaitCounts(g: Gate)
    ensures All(GateNext(g, Waits)) == All(g) + multiset{g.began}
  {
  }

  lemma OpenCounts(g: Gate)
    requires g.isOpen ==> g.waiters == []
    ensures All(GateNext(g, Opens)) == All(g)
  {
  }

  lemma ResumeCounts(g: Gate, i: nat)
    requires i < |g.due|
    ensures All(GateNext(g, Resumes(i))) == All(g)
  {
    TakeOut(g.due, i);
  }

  lemma GateStep(g: Gate, e: GateEvent)
    requires GateInv(g) && GateEnabled(g, e)
    ensures GateInv(GateNext(g, e))
  {
    hide CountedOnce, All;
    match e
    case Opens => OpenCounts(g);
    case Waits => WaitCounts(g); OneMore(All(g), g.began);
    case Resumes(i) => ResumeCounts(g, i);
  }

  lemma {:induction false} GateKeepsInv(g: Gate, events: seq<GateEvent>, g': Gate)
    requires GateInv(g) && GateRun(g, events, g')
    ensures GateInv(g')
    decreases |events|
  {
    hide GateInv;
    if events != [] {
      GateStep(g, events[0]);
      GateKeepsInv(GateNext(g, events[0]), events[1..], g');
    }
  }

  /** In every run: nobody is resumed before the gate opens, nobody twice, and once it is open and
      nothing is due, everybody who ever waited has been resumed. */
  lemma EveryWaiterOnce(events: seq<GateEvent>, g: Gate)
    requires GateRun(CLOSED, events, g)
    ensures !g.isOpen ==> g.resumed == []
    ensures forall w: Waiter :: multiset(g.resumed)[w] <= 1 && (w in g.resumed ==> w < g.began)
    ensures g.isOpen && g.due == [] ==> forall w: Waiter :: w < g.began ==> multiset(g.resumed)[w] == 1
  {
    GateKeepsInv(CLOSED, events, g);
    var all := All(g);
    forall w: Waiter ensures multiset(g.resumed)[w] <= 1 && (w in g.resumed ==> w < g.began) {
      assert all[w] == if w < g.began then 1 else 0;
      assert w in g.resumed ==> w in multiset(g.resumed);
    }
    if g.isOpen && g.due == [] {
      forall w: Waiter | w < g.began ensures multiset(g.resumed)[w] == 1 {
        assert all[w] == 1;
      }
    }
  }
}
