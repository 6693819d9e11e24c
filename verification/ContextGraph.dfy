/** A finite graph of maps and lists, the cycle test of the context copy, and
    the tree the copy denotes. */
module ContextGraph {
  import opened Optional

  type Id = nat

  datatype ScalarKind = Boolean | Text | Number

  /** An attribute value. `Undefined` exists only in JavaScript, the nil containers only in Go;
      `Foreign` is any other host value. */
  datatype Value =
    | Nil
    | Scalar(kind: ScalarKind, text: string)
    | Undefined
    | Foreign(name: string)
    | NilMap
    | NilList
    | Ref(id: Id)

  datatype Container = MapOf(entries: map<string, Value>) | ListOf(items: seq<Value>)

  type Heap = map<Id, Container>

  predicate HasChild(c: Container, v: Value) {
    match c
    case MapOf(m) => exists k :: k in m && m[k] == v
    case ListOf(s) => exists i :: 0 <= i < |s| && s[i] == v
  }

  predicate Known(h: Heap, v: Value) { v.Ref? ==> v.id in h }

  /** Every reference held by a container of the heap is a container of the heap. */
  predicate Closed(h: Heap) {
    && (forall id, k :: id in h && h[id].MapOf? && k in h[id].entries ==> Known(h, h[id].entries[k]))
    && (forall id, i :: id in h && h[id].ListOf? && 0 <= i < |h[id].items| ==> Known(h, h[id].items[i]))
  }

  // ---- the cycle test ----

  ghost function Room(h: Heap, path: set<Id>): nat { |h.Keys - path| }

  lemma RoomShrinks(h: Heap, id: Id, path: set<Id>)
    requires id in h && id !in path
    ensures Room(h, path + {id}) < Room(h, path)
  {
    assert h.Keys - path == (h.Keys - (path + {id})) + {id};
  }

  /** Does copying `v`, with the containers of `path` under way, meet one of them again? */
  ghost predicate Flag(h: Heap, v: Value, path: set<Id>)
    requires Closed(h) && Known(h, v)
    decreases Room(h, path)
  {
    v.Ref? && (
      || v.id in path
      || (RoomShrinks(h, v.id, path);
          match h[v.id]
          case MapOf(m) => exists k :: k in m && Flag(h, m[k], path + {v.id})
          case ListOf(s) => exists i :: 0 <= i < |s| && Flag(h, s[i], path + {v.id})))
  }

  /** Each container of `w` holds a reference to the next one. */
  ghost predicate Walk(h: Heap, w: seq<Id>) {
    && (forall i :: 0 <= i < |w| ==> w[i] in h)
    && (forall i :: 0 <= i < |w| - 1 ==> HasChild(h[w[i]], Ref(w[i + 1])))
  }

  /** `w` leads from `root` to some container and from there back to it. */
  ghost predicate Lasso(h: Heap, root: Id, w: seq<Id>, i: nat) {
    Walk(h, w) && i < |w| - 1 && w[0] == root && w[i] == w[|w| - 1]
  }

  /** Some container reachable from `root` can reach itself. */
  ghost predicate CycleReachable(h: Heap, root: Id) {
    exists w: seq<Id>, i: nat :: Lasso(h, root, w, i)
  }

  function Ids(w: seq<Id>): set<Id> { set i | 0 <= i < |w| :: w[i] }

  lemma ChildKnown(h: Heap, id: Id, v: Value)
    requires Closed(h) && id in h && HasChild(h[id], v)
    ensures Known(h, v)
  {
  }

  lemma FlagChild(h: Heap, id: Id, v: Value, path: set<Id>)
    requires Closed(h) && id in h && HasChild(h[id], v) && id !in path && Known(h, v)
    requires Flag(h, v, path + {id})
    ensures Flag(h, Ref(id), path)
  {
    match h[id]
    case MapOf(m) =>
      var k :| k in m && m[k] == v;
      assert Flag(h, m[k], path + {id});
    case ListOf(s) =>
      var i :| 0 <= i < |s| && s[i] == v;
      assert Flag(h, s[i], path + {id});
  }

  lemma FlaggedChild(h: Heap, id: Id, path: set<Id>) returns (v: Value)
    requires Closed(h) && id in h && id !in path && Flag(h, Ref(id), path)
    ensures HasChild(h[id], v) && Known(h, v) && Flag(h, v, path + {id})
  {
    match h[id]
    case MapOf(m) =>
      var k :| k in m && Flag(h, m[k], path + {id});
      v := m[k];
    case ListOf(s) =>
      var i :| 0 <= i < |s| && Flag(h, s[i], path + {id});
      v := s[i];
  }

  lemma {:induction false} FlagFollowsWalk(h: Heap, w: seq<Id>, i: nat)
    requires Closed(h) && Walk(h, w) && i < |w| && w[|w| - 1] in Ids(w[..|w| - 1])
    ensures Flag(h, Ref(w[i]), Ids(w[..i]))
    decreases |w| - i
  {
    if w[i] !in Ids(w[..i]) {
      if i == |w| - 1 {
        assert false;
      } else {
        FlagFollowsWalk(h, w, i + 1);
        assert Ids(w[..i + 1]) == Ids(w[..i]) + {w[i]} by {
          assert w[..i + 1] == w[..i] + [w[i]];
          assert w[..i + 1][i] == w[i];
          forall j | 0 <= j < i ensures w[..i + 1][j] == w[..i][j] {}
        }
        FlagChild(h, w[i], Ref(w[i + 1]), Ids(w[..i]));
      }
    }
  }

  /** A flagged container that the walk has not met yet leads the walk on. */
  lemma WalkOn(h: Heap, w: seq<Id>) returns (next: seq<Id>)
    requires Closed(h) && Walk(h, w) && w != [] && w[|w| - 1] !in Ids(w[..|w| - 1])
    requires Flag(h, Ref(w[|w| - 1]), Ids(w[..|w| - 1]))
    ensures Walk(h, next) && |next| == |w| + 1 && next[..|w|] == w && Flag(h, Ref(next[|w|]), Ids(w))
    ensures Room(h, Ids(w)) < Room(h, Ids(w[..|w| - 1]))
  {
    hide Flag, Room;
    var before, id := w[..|w| - 1], w[|w| - 1];
    var v := FlaggedChild(h, id, Ids(before));
    IdsGrow(w);
    RoomShrinks(h, id, Ids(before));
    FlagIsRef(h, v, Ids(w));
    next := w + [v.id];
  }

  lemma FlagIsRef(h: Heap, v: Value, path: set<Id>)
    requires Closed(h) && Known(h, v) && Flag(h, v, path)
    ensures v.Ref? && v.id in h
  {
  }

  lemma IdsGrow(w: seq<Id>)
    requires w != []
    ensures Ids(w) == Ids(w[..|w| - 1]) + {w[|w| - 1]}
  {
    var before := w[..|w| - 1];
    assert w == before + [w[|w| - 1]];
    forall j | 0 <= j < |before| ensures w[j] == before[j] {}
  }

  lemma LassoHere(h: Heap, w: seq<Id>)
    requires Walk(h, w) && w != [] && w[|w| - 1] in Ids(w[..|w| - 1])
    ensures CycleReachable(h, w[0])
  {
    var i :| 0 <= i < |w| - 1 && w[i] == w[|w| - 1];
    assert Lasso(h, w[0], w, i);
  }

  lemma {:induction false} FlagFindsLasso(h: Heap, w: seq<Id>)
    requires Closed(h) && Walk(h, w) && w != []
    requires Flag(h, Ref(w[|w| - 1]), Ids(w[..|w| - 1]))
    ensures CycleReachable(h, w[0])
    decreases Room(h, Ids(w[..|w| - 1]))
  {
    hide Flag, Walk, Ids, Room, CycleReachable;
    if w[|w| - 1] in Ids(w[..|w| - 1]) {
      LassoHere(h, w);
    } else {
      var next := WalkOn(h, w);
      assert next[..|next| - 1] == w && next[0] == next[..|w|][0];
      FlagFindsLasso(h, next);
    }
  }

  /** The copy reports a cycle exactly when some container reachable from the root reaches itself:
      containers that sibling branches merely share are never reported. */
  lemma FlagIffCycleReachable(h: Heap, root: Id)
    requires Closed(h) && root in h
    ensures Flag(h, Ref(root), {}) <==> CycleReachable(h, root)
  {
    assert Ids([]) == {};
    if Flag(h, Ref(root), {}) {
      assert [root][..0] == [];
      FlagFindsLasso(h, [root]);
    }
    if CycleReachable(h, root) {
      var w: seq<Id>, i: nat :| Lasso(h, root, w, i);
      assert w[..|w| - 1][i] == w[|w| - 1];
      assert w[..0] == [];
      FlagFollowsWalk(h, w, 0);
    }
  }

  // ---- the tree a copy denotes ----

  datatype Tree = Leaf(value: Value) | Branch(entries: map<string, Tree>) | Row(items: seq<Tree>)

  /** The unfolding of `v` with every reference back into `path` cut to nil. */
  ghost function Unfold(h: Heap, v: Value, path: set<Id>): (t: Tree)
    requires Closed(h) && Known(h, v)
    decreases Room(h, path)
  {
    match v
    case Nil => Leaf(v)
    case Scalar(_, _) => Leaf(v)
    case Undefined => Leaf(v)
    case Foreign(_) => Leaf(v)
    case NilMap => Leaf(Nil)
    case NilList => Row([])
    case Ref(id) =>
      if id in path then Leaf(Nil)
      else
        RoomShrinks(h, id, path);
        match h[id]
        case MapOf(m) => Branch(map k | k in m :: Unfold(h, m[k], path + {id}))
        case ListOf(s) => Row(seq(|s|, i requires 0 <= i < |s| => Unfold(h, s[i], path + {id})))
  }

  // ---- which tree that is: access paths from the root ----

  datatype Step = Entry(key: string) | Item(index: nat)

  function Follow(h: Heap, v: Value, step: Step): (r: Option<Value>) {
    if !v.Ref? || v.id !in h then None
    else
      match step
      case Entry(k) => if h[v.id].MapOf? && k in h[v.id].entries then Some(h[v.id].entries[k]) else None
      case Item(i) => if h[v.id].ListOf? && i < |h[v.id].items| then Some(h[v.id].items[i]) else None
  }

  /** The values met from `v` along `steps`, if the steps exist. */
  function Trail(h: Heap, v: Value, steps: seq<Step>): (r: Option<seq<Value>>)
    ensures r.Some? ==> |r.value| == |steps| + 1 && r.value[0] == v
    decreases |steps|
  {
    if steps == [] then Some([v])
    else
      match Follow(h, v, steps[0])
      case None => None
      case Some(w) =>
        match Trail(h, w, steps[1..])
        case None => None
        case Some(rest) => Some([v] + rest)
  }

  function Under(t: Tree, steps: seq<Step>): Option<Tree>
    decreases |steps|
  {
    if steps == [] then Some(t)
    else
      match (t, steps[0])
      case (Branch(m), Entry(k)) => if k in m then Under(m[k], steps[1..]) else None
      case (Row(s), Item(i)) => if i < |s| then Under(s[i], steps[1..]) else None
      case _ => None
  }

  /** The container met at step `j` was met before, on the way or in `path`. */
  ghost predicate Back(trail: seq<Value>, path: set<Id>, j: nat)
    requires j < |trail|
  {
    trail[j].Ref? && (trail[j].id in path || exists i :: 0 <= i < j && trail[i] == trail[j])
  }

  /** What a tree shows at its root: a leaf, the keys of a map, or the length of a list. */
  datatype Label = LeafLabel(value: Value) | KeysLabel(keys: set<string>) | LengthLabel(length: nat)

  function LabelOf(t: Tree): Label {
    match t
    case Leaf(v) => LeafLabel(v)
    case Branch(m) => KeysLabel(m.Keys)
    case Row(s) => LengthLabel(|s|)
  }

  function Shown(h: Heap, v: Value): Label
    requires Known(h, v)
  {
    match v
    case NilMap => LeafLabel(Nil)
    case NilList => LengthLabel(0)
    case Ref(id) => (match h[id] case MapOf(m) => KeysLabel(m.Keys) case ListOf(s) => LengthLabel(|s|))
    case _ => LeafLabel(v)
  }

  lemma TrailKnown(h: Heap, v: Value, step: Step)
    requires Closed(h) && Known(h, v) && Follow(h, v, step).Some?
    ensures Known(h, Follow(h, v, step).value) && HasChild(h[v.id], Follow(h, v, step).value)
  {
  }

  lemma UnfoldStep(h: Heap, v: Value, path: set<Id>, step: Step)
    requires Closed(h) && Known(h, v)
    ensures var under := Under(Unfold(h, v, path), [step]);
            match Follow(h, v, step)
            case None => under == None
            case Some(w) =>
              Known(h, w) && under == if v.id in path then None else Some(Unfold(h, w, path + {v.id}))
  {
    if Follow(h, v, step).Some? { TrailKnown(h, v, step); }
  }

  lemma UnderStep(t: Tree, steps: seq<Step>)
    requires steps != []
    ensures Under(t, steps) ==
            match Under(t, [steps[0]]) case None => None case Some(u) => Under(u, steps[1..])
  {
  }

  lemma BackStep(trail: seq<Value>, path: set<Id>, j: nat)
    requires |trail| > 0 && trail[0].Ref? && 0 < j < |trail|
    ensures Back(trail, path, j) <==> Back(trail[1..], path + {trail[0].id}, j - 1)
  {
    var rest := trail[1..];
    if i :| 0 <= i < j && trail[i] == trail[j] {
      if i > 0 { assert rest[i - 1] == rest[j - 1]; }
    }
    if i :| 0 <= i < j - 1 && rest[i] == rest[j - 1] {
      assert trail[i + 1] == trail[j];
    }
  }

  /** Step by step from the root, the copy has exactly the paths of the input that do not go on
      after coming back to a container; such a return is nil, everything else is as in the input. */
  lemma {:induction false} UnfoldCutsBackEdges(h: Heap, v: Value, path: set<Id>, steps: seq<Step>)
    requires Closed(h) && Known(h, v)
    ensures var trail, under := Trail(h, v, steps), Under(Unfold(h, v, path), steps);
            && (under.Some? <==> trail.Some? && forall j :: 0 <= j < |steps| ==> !Back(trail.value, path, j))
            && (under.Some? ==>
                  && Known(h, trail.value[|steps|])
                  && LabelOf(under.value) == if Back(trail.value, path, |steps|) then LeafLabel(Nil)
                                             else Shown(h, trail.value[|steps|]))
    decreases |steps|
  {
    hide Unfold, Under, Back;
    if steps == [] {
      UnfoldRoot(h, v, path);
    } else {
      UnfoldStep(h, v, path, steps[0]);
      UnderStep(Unfold(h, v, path), steps);
      if Follow(h, v, steps[0]).Some? {
        var w := Follow(h, v, steps[0]).value;
        UnfoldCutsBackEdges(h, w, path + {v.id}, steps[1..]);
        if Trail(h, v, steps).Some? { UnfoldCutsBehind(h, v, path, steps, w); }
      }
    }
  }

  lemma UnfoldRoot(h: Heap, v: Value, path: set<Id>)
    requires Closed(h) && Known(h, v)
    ensures Under(Unfold(h, v, path), []) == Some(Unfold(h, v, path))
    ensures LabelOf(Unfold(h, v, path)) == if Back([v], path, 0) then LeafLabel(Nil) else Shown(h, v)
  {
  }

  lemma UnfoldCutsBehind(h: Heap, v: Value, path: set<Id>, steps: seq<Step>, w: Value)
    requires steps != [] && Follow(h, v, steps[0]) == Some(w)
    requires Trail(h, v, steps).Some?
    ensures var trail, rest := Trail(h, v, steps).value, Trail(h, w, steps[1..]).value;
            && trail[|steps|] == rest[|steps| - 1]
            && (Back(trail, path, 0) <==> v.id in path)
            && (Back(trail, path, |steps|) <==> Back(rest, path + {v.id}, |steps| - 1))
            && ((forall j :: 0 <= j < |steps| ==> !Back(trail, path, j)) <==>
                v.id !in path && forall j :: 0 <= j < |steps| - 1 ==> !Back(rest, path + {v.id}, j))
  {
    var trail, rest := Trail(h, v, steps).value, Trail(h, w, steps[1..]).value;
    assert trail[1..] == rest;
    forall j | 0 < j <= |steps| ensures Back(trail, path, j) <==> Back(rest, path + {v.id}, j - 1) {
      BackStep(trail, path, j);
    }
    if forall j :: 0 <= j < |steps| ==> !Back(trail, path, j) {
      assert !Back(trail, path, 0);
      forall j | 0 <= j < |steps| - 1 ensures !Back(rest, path + {v.id}, j) {
        assert !Back(trail, path, j + 1);
      }
    }
  }

  /** An unflagged value is unfolded whole: no path comes back, nothing is cut. */
  lemma {:induction false} UnflaggedUncut(h: Heap, v: Value, path: set<Id>, steps: seq<Step>)
    requires Closed(h) && Known(h, v) && !Flag(h, v, path) && Trail(h, v, steps).Some?
    ensures forall j :: 0 <= j <= |steps| ==> !Back(Trail(h, v, steps).value, path, j)
    decreases |steps|
  {
    hide Back;
    var trail := Trail(h, v, steps).value;
    if steps == [] {
      NotBack(v, path);
    } else {
      var w := Follow(h, v, steps[0]).value;
      TrailKnown(h, v, steps[0]);
      if Flag(h, w, path + {v.id}) { FlagChild(h, v.id, w, path); }
      UnflaggedUncut(h, w, path + {v.id}, steps[1..]);
      var rest := Trail(h, w, steps[1..]).value;
      assert trail[1..] == rest;
      forall j | 0 <= j <= |steps| ensures !Back(trail, path, j) {
        if j > 0 { BackStep(trail, path, j); assert !Back(rest, path + {v.id}, j - 1); } else { FirstNotBack(trail, path); }
      }
    }
  }

  lemma NotBack(v: Value, path: set<Id>)
    requires v.Ref? ==> v.id !in path
    ensures !Back([v], path, 0)
  {
  }

  lemma FirstNotBack(trail: seq<Value>, path: set<Id>)
    requires trail != [] && (trail[0].Ref? ==> trail[0].id !in path)
    ensures !Back(trail, path, 0)
  {
  }

  // ---- depth ----

  /** The largest of a finite set of depths, 0 for none. */
  ghost function MaxOf(s: set<nat>): (m: nat)
    ensures s == {} ==> m == 0
    ensures s != {} ==> m in s
    ensures forall x :: x in s ==> x <= m
  {
    if s == {} then 0
    else
      var x :| x in s;
      var rest := MaxOf(s - {x});
      assert s == s - {x} + {x};
      if rest < x then x else rest
  }

  /** Scalars have depth 1, each enclosing container adds one. */
  ghost function Depth(t: Tree): nat
    decreases t, 1
  {
    if t.Leaf? then 1 else 1 + MaxOf(ChildDepths(t))
  }

  ghost function ChildDepths(t: Tree): set<nat>
    decreases t, 0
  {
    match t
    case Leaf(_) => {}
    case Branch(m) => set k | k in m :: Depth(m[k])
    case Row(s) => set i | 0 <= i < |s| :: Depth(s[i])
  }

  lemma BranchDepth(m: map<string, Tree>, bound: nat)
    requires forall k :: k in m ==> Depth(m[k]) <= bound
    ensures Depth(Branch(m)) <= bound + 1
  {
  }

  lemma RowDepth(s: seq<Tree>, bound: nat)
    requires forall i :: 0 <= i < |s| ==> Depth(s[i]) <= bound
    ensures Depth(Row(s)) <= bound + 1
  {
  }

  /** A copy is never deeper than the number of containers it was made from, plus one. */
  lemma {:induction false} DepthBounded(h: Heap, v: Value, path: set<Id>)
    requires Closed(h) && Known(h, v)
    ensures Depth(Unfold(h, v, path)) <= Room(h, path) + 1
    decreases Room(h, path)
  {
    hide Depth, Room;
    var t := Unfold(h, v, path);
    if v.Ref? && v.id !in path {
      RoomShrinks(h, v.id, path);
      match h[v.id] {
        case MapOf(m) =>
          forall k | k in m ensures Depth(t.entries[k]) <= Room(h, path) {
            DepthBounded(h, m[k], path + {v.id});
          }
          BranchDepth(t.entries, Room(h, path));
        case ListOf(s) =>
          forall i | 0 <= i < |s| ensures Depth(t.items[i]) <= Room(h, path) {
            DepthBounded(h, s[i], path + {v.id});
          }
          RowDepth(t.items, Room(h, path));
      }
    } else {
      ShallowDepth(t);
    }
  }

  lemma ShallowDepth(t: Tree)
    requires t.Leaf? || t == Row([])
    ensures Depth(t) == 1
  {
  }
}
