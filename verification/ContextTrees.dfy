/** What a copy is once made: a finite tree in containers of its own, on which
    the depth measures terminate and another copy changes nothing. */
module ContextTrees {
  import opened ContextGraph
  import opened ContextCopy

  lemma ChildRep(h: Heap, v: Value, t: Tree, low: Id, child: Value) returns (u: Tree)
    requires Rep(h, v, t, low) && v.Ref? && HasChild(h[v.id], child)
    ensures Rep(h, child, u, v.id + 1) && low <= v.id
  {
    match t {
      case Leaf(_) => assert false; u := t;
      case Branch(m) =>
        var k :| k in h[v.id].entries && h[v.id].entries[k] == child;
        u := m[k];
      case Row(s) =>
        var i :| 0 <= i < |s| && h[v.id].items[i] == child;
        u := s[i];
    }
  }

  /** Along any walk into a copy the container numbers grow: nothing of the input is reached,
      and nothing is reached twice. */
  lemma {:induction false} CopyIsFresh(h: Heap, v: Value, t: Tree, low: Id, w: seq<Id>)
    requires Rep(h, v, t, low) && Walk(h, w) && w != [] && v == Ref(w[0])
    ensures forall i :: 0 <= i < |w| ==> low <= w[i]
    ensures forall i :: 0 < i < |w| ==> w[0] < w[i]
    decreases |w|
  {
    if |w| > 1 {
      assert HasChild(h[w[0]], Ref(w[1]));
      var u := ChildRep(h, v, t, low, Ref(w[1]));
      var rest := w[1..];
      forall i | 0 <= i < |rest| - 1 ensures HasChild(h[rest[i]], Ref(rest[i + 1])) {
        assert HasChild(h[w[i + 1]], Ref(w[i + 2]));
      }
      CopyIsFresh(h, Ref(w[1]), u, v.id + 1, rest);
      forall i | 0 < i < |w| ensures w[0] < w[i] { assert w[i] == rest[i - 1]; }
    }
  }

  lemma RepFound(h: Heap, v: Value, t: Tree, low: Id)
    requires Rep(h, v, t, low)
    ensures v.Ref? <==> !t.Leaf?
  {
  }

  lemma AbovePath(h: Heap, id: Id, path: set<Id>, low: Id)
    requires low <= id && forall p :: p in path ==> p < low
    ensures id !in path && forall p :: p in path + {id} ==> p < id + 1
  {
  }

  /** A copy is never flagged, and copying it again gives the same tree. */
  lemma {:induction false} CopyOfCopy(h: Heap, v: Value, t: Tree, low: Id, path: set<Id>)
    requires Closed(h) && Rep(h, v, t, low) && Known(h, v) && forall p :: p in path ==> p < low
    ensures !Flag(h, v, path) && Unfold(h, v, path) == t
    decreases t
  {
    match t
    case Leaf(_) =>
    case Branch(m) =>
      AbovePath(h, v.id, path, low);
      forall k | k in m ensures !Flag(h, h[v.id].entries[k], path + {v.id})
        ensures Unfold(h, h[v.id].entries[k], path + {v.id}) == m[k]
      {
        CopyOfCopy(h, h[v.id].entries[k], m[k], v.id + 1, path + {v.id});
      }
    case Row(s) =>
      AbovePath(h, v.id, path, low);
      forall i | 0 <= i < |s| ensures !Flag(h, h[v.id].items[i], path + {v.id})
        ensures Unfold(h, h[v.id].items[i], path + {v.id}) == s[i]
      {
        CopyOfCopy(h, h[v.id].items[i], s[i], v.id + 1, path + {v.id});
      }
  }

  // ---- Go's depthOf: no guard, terminates because the copy is a tree ----

  /** `max` is the largest depth among the entries looked at, 0 for none. */
  ghost predicate DeepestEntry(m: map<string, Tree>, done: set<string>, max: nat) {
    && (forall k :: k in done && k in m ==> Depth(m[k]) <= max)
    && (max == 0 || exists k :: k in done && k in m && Depth(m[k]) == max)
  }

  ghost predicate DeepestItem(s: seq<Tree>, n: nat, max: nat) {
    && (forall i :: 0 <= i < n && i < |s| ==> Depth(s[i]) <= max)
    && (max == 0 || exists i :: 0 <= i < n && i < |s| && Depth(s[i]) == max)
  }

  lemma EntryDepth(m: map<string, Tree>, done: set<string>, k: string, max: nat)
    requires k in m && DeepestEntry(m, done, max)
    ensures DeepestEntry(m, done + {k}, if Depth(m[k]) > max then Depth(m[k]) else max)
  {
    hide Depth;
    if max > 0 {
      var j :| j in done && j in m && Depth(m[j]) == max;
      assert j in done + {k} && k in done + {k};
    } else {
      assert k in done + {k};
    }
  }

  lemma ItemDepth(s: seq<Tree>, n: nat, max: nat)
    requires n < |s| && DeepestItem(s, n, max)
    ensures DeepestItem(s, n + 1, if Depth(s[n]) > max then Depth(s[n]) else max)
  {
    hide Depth;
    if max > 0 {
      var j :| 0 <= j < n && Depth(s[j]) == max;
      assert 0 <= j < n + 1;
    }
  }

  lemma DeepestIs(t: Tree, max: nat)
    requires t.Branch? ==> DeepestEntry(t.entries, t.entries.Keys, max)
    requires t.Row? ==> DeepestItem(t.items, |t.items|, max)
    requires !t.Leaf?
    ensures Depth(t) == 1 + max
  {
    var depths := ChildDepths(t);
    if max > 0 {
      match t
      case Branch(m) => var k :| k in m && Depth(m[k]) == max; assert Depth(m[k]) in depths;
      case Row(s) => var i :| 0 <= i < |s| && Depth(s[i]) == max; assert Depth(s[i]) in depths;
    }
  }

  method DepthOf(mem: Memory, v: Value, ghost t: Tree, ghost low: Id) returns (d: nat)
    requires Rep(mem.cells, v, t, low)
    ensures d == Depth(t)
    decreases t
  {
    hide Depth, DeepestEntry, DeepestItem;
    RepFound(mem.cells, v, t, low);
    if !v.Ref? { ShallowDepth(t); return 1; }
    match mem.cells[v.id]
    case MapOf(_) => d := DepthOfMap(mem, v, t, low);
    case ListOf(_) => d := DepthOfList(mem, v, t, low);
  }

  method DepthOfMap(mem: Memory, v: Value, ghost t: Tree, ghost low: Id) returns (d: nat)
    requires Rep(mem.cells, v, t, low) && t.Branch?
    ensures d == Depth(t)
    decreases t, 0
  {
    hide Depth, DeepestEntry;
    var entries, max: nat := mem.cells[v.id].entries, 0;
    ghost var done: set<string> := {};
    NoneDeepest(t);
    var keys := entries.Keys;
    while keys != {}
      invariant keys <= t.entries.Keys && done == t.entries.Keys - keys
      invariant DeepestEntry(t.entries, done, max)
      decreases |keys|
    {
      var k :| k in keys;
      var e := DepthOf(mem, entries[k], t.entries[k], v.id + 1);
      EntryDepth(t.entries, done, k, max);
      if e > max { max := e; }
      keys := keys - {k};
      done := done + {k};
    }
    assert done == t.entries.Keys;
    DeepestIs(t, max);
    d := 1 + max;
  }

  method DepthOfList(mem: Memory, v: Value, ghost t: Tree, ghost low: Id) returns (d: nat)
    requires Rep(mem.cells, v, t, low) && t.Row?
    ensures d == Depth(t)
    decreases t, 0
  {
    hide Depth, DeepestItem;
    var items, max: nat := mem.cells[v.id].items, 0;
    NoneDeepest(t);
    for i := 0 to |items|
      invariant DeepestItem(t.items, i, max)
    {
      var e := DepthOf(mem, items[i], t.items[i], v.id + 1);
      ItemDepth(t.items, i, max);
      if e > max { max := e; }
    }
    DeepestIs(t, max);
    d := 1 + max;
  }

  lemma NoneDeepest(t: Tree)
    ensures t.Branch? ==> DeepestEntry(t.entries, {}, 0)
    ensures t.Row? ==> DeepestItem(t.items, 0, 0)
  {
  }
}
