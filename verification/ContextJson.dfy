/** The JavaScript copy: the same walk, left at the first cycle, reading values
    as JSON does. */
module ContextJson {
  import opened Optional
  import opened ContextGraph
  import opened ContextCopy

  /** What JSON keeps of a value: anything that is not a scalar or a container reads as null. */
  function JsonValue(v: Value): (r: Value)
    ensures r.Nil? || r.Scalar? || r.Ref?
    ensures r.Ref? <==> v.Ref?
  {
    match v
    case Scalar(_, _) => v
    case Ref(_) => v
    case _ => Nil
  }

  /** Entries that are undefined are dropped from objects; in arrays they read as null. */
  function JsonContainer(c: Container): Container {
    match c
    case MapOf(m) => MapOf(map k | k in m && m[k] != Undefined :: JsonValue(m[k]))
    case ListOf(s) => ListOf(seq(|s|, i requires 0 <= i < |s| => JsonValue(s[i])))
  }

  function JsonHeap(h: Heap): Heap { map id | id in h :: JsonContainer(h[id]) }

  function JsonTree(t: Tree): Tree {
    match t
    case Leaf(v) => Leaf(JsonValue(v))
    case Branch(m) => Branch(map k | k in m && m[k] != Leaf(Undefined) :: JsonTree(m[k]))
    case Row(s) => Row(seq(|s|, i requires 0 <= i < |s| => JsonTree(s[i])))
  }

  lemma JsonClosed(h: Heap)
    requires Closed(h)
    ensures Closed(JsonHeap(h)) && JsonHeap(h).Keys == h.Keys
    ensures forall v :: Known(h, v) ==> Known(JsonHeap(h), JsonValue(v))
  {
    var j := JsonHeap(h);
    forall id, k | id in j && j[id].MapOf? && k in j[id].entries ensures Known(j, j[id].entries[k]) {
      assert Known(h, h[id].entries[k]);
    }
    forall id, i | id in j && j[id].ListOf? && 0 <= i < |j[id].items| ensures Known(j, j[id].items[i]) {
      assert Known(h, h[id].items[i]);
    }
  }

  lemma JsonChild(h: Heap, id: Id, v: Value)
    requires id in h && v.Ref?
    ensures HasChild(JsonHeap(h)[id], v) <==> HasChild(h[id], v)
  {
    match h[id]
    case MapOf(m) =>
      if k :| k in m && m[k] == v { assert JsonHeap(h)[id].entries[k] == v; }
    case ListOf(s) =>
      if i :| 0 <= i < |s| && s[i] == v { assert JsonHeap(h)[id].items[i] == v; }
  }

  /** Reading as JSON changes no verdict. */
  lemma {:induction false} JsonFlag(h: Heap, v: Value, path: set<Id>)
    requires Closed(h) && Known(h, v) && Closed(JsonHeap(h)) && Known(JsonHeap(h), JsonValue(v))
    ensures Flag(JsonHeap(h), JsonValue(v), path) == Flag(h, v, path)
    decreases Room(h, path)
  {
    hide JsonHeap, JsonContainer;
    var j := JsonHeap(h);
    if v.Ref? && v.id !in path {
      RoomShrinks(h, v.id, path);
      if Flag(h, v, path) {
        var w := FlaggedChild(h, v.id, path);
        JsonChild(h, v.id, w);
        ChildKnown(j, v.id, w);
        JsonFlag(h, w, path + {v.id});
        FlagChild(j, v.id, w, path);
      }
      if Flag(j, v, path) {
        var w := FlaggedChild(j, v.id, path);
        JsonChild(h, v.id, w);
        ChildKnown(h, v.id, w);
        JsonFlag(h, w, path + {v.id});
        FlagChild(h, v.id, w, path);
      }
    }
  }

  /** The JavaScript heap has no nil lists, which only Go has. */
  predicate NoNilList(h: Heap) {
    && (forall id, k :: id in h && h[id].MapOf? && k in h[id].entries ==> h[id].entries[k] != NilList)
    && (forall id, i :: id in h && h[id].ListOf? && 0 <= i < |h[id].items| ==> h[id].items[i] != NilList)
  }

  /** The tree is the JSON reading of the tree the Go copy makes. */
  lemma {:induction false} JsonUnfold(h: Heap, v: Value, path: set<Id>)
    requires Closed(h) && Known(h, v) && NoNilList(h) && v != NilList
    requires Closed(JsonHeap(h)) && Known(JsonHeap(h), JsonValue(v))
    ensures Unfold(JsonHeap(h), JsonValue(v), path) == JsonTree(Unfold(h, v, path))
    ensures Unfold(h, v, path) == Leaf(Undefined) <==> v == Undefined
    decreases Room(h, path), 1
  {
    if v.Ref? && v.id !in path {
      match h[v.id]
      case MapOf(m) => JsonUnfoldMap(h, v, path, m);
      case ListOf(s) => JsonUnfoldList(h, v, path, s);
    }
  }

  lemma {:induction false} JsonUnfoldMap(h: Heap, v: Value, path: set<Id>, m: map<string, Value>)
    requires Closed(h) && Known(h, v) && NoNilList(h) && v.Ref? && v.id !in path && h[v.id] == MapOf(m)
    requires Closed(JsonHeap(h)) && Known(JsonHeap(h), JsonValue(v))
    ensures Unfold(JsonHeap(h), JsonValue(v), path) == JsonTree(Unfold(h, v, path))
    ensures Unfold(h, v, path) != Leaf(Undefined)
    decreases Room(h, path), 0
  {
    RoomShrinks(h, v.id, path);
    var inside := path + {v.id};
    forall k | k in m ensures SameEntry(h, m[k], inside) {
      JsonEntryKnown(h, v.id, m, k);
      JsonUnfold(h, m[k], inside);
    }
    JsonBranch(h, v, path, m);
  }

  /** The entry unfolds to the JSON reading of what it unfolds to in Go, and to nothing only if it is undefined. */
  ghost predicate SameEntry(h: Heap, v: Value, path: set<Id>)
    requires Closed(h) && Known(h, v) && Closed(JsonHeap(h)) && Known(JsonHeap(h), JsonValue(v))
  {
    && (Unfold(h, v, path) == Leaf(Undefined) <==> v == Undefined)
    && Unfold(JsonHeap(h), JsonValue(v), path) == JsonTree(Unfold(h, v, path))
  }

  lemma JsonEntryKnown(h: Heap, id: Id, m: map<string, Value>, k: string)
    requires Closed(h) && NoNilList(h) && id in h && h[id] == MapOf(m) && k in m
    ensures Known(h, m[k]) && m[k] != NilList && Closed(JsonHeap(h)) && Known(JsonHeap(h), JsonValue(m[k]))
  {
    hide JsonHeap, JsonValue, Known;
    JsonClosed(h);
    assert Known(h, h[id].entries[k]);
  }

  lemma UnfoldMap(h: Heap, v: Value, path: set<Id>, m: map<string, Value>)
    requires Closed(h) && Known(h, v) && v.Ref? && v.id in h && v.id !in path && h[v.id] == MapOf(m)
    ensures forall k :: k in m ==> Known(h, m[k])
    ensures var t := Unfold(h, v, path);
            t.Branch? && t.entries.Keys == m.Keys && forall k :: k in m ==> t.entries[k] == Unfold(h, m[k], path + {v.id})
  {
    hide Known;
    forall k | k in m ensures Known(h, m[k]) { assert Known(h, h[v.id].entries[k]); }
  }

  lemma JsonTreeMap(t: Tree)
    requires t.Branch?
    ensures JsonTree(t).Branch?
    ensures forall k :: k in JsonTree(t).entries <==> k in t.entries && t.entries[k] != Leaf(Undefined)
    ensures forall k :: k in JsonTree(t).entries ==> JsonTree(t).entries[k] == JsonTree(t.entries[k])
  {
  }

  lemma JsonHeapMap(h: Heap, id: Id, m: map<string, Value>)
    requires id in h && h[id] == MapOf(m)
    ensures id in JsonHeap(h) && JsonHeap(h)[id].MapOf?
    ensures var e := JsonHeap(h)[id].entries;
            (forall k :: k in e <==> k in m && m[k] != Undefined) && (forall k :: k in e ==> e[k] == JsonValue(m[k]))
  {
  }

  lemma JsonBranch(h: Heap, v: Value, path: set<Id>, m: map<string, Value>)
    requires Closed(h) && Known(h, v) && v.Ref? && v.id in h && v.id !in path && h[v.id] == MapOf(m)
    requires Closed(JsonHeap(h)) && Known(JsonHeap(h), JsonValue(v))
    requires forall k :: k in m ==> Known(h, m[k]) && Known(JsonHeap(h), JsonValue(m[k])) && SameEntry(h, m[k], path + {v.id})
    ensures Unfold(JsonHeap(h), JsonValue(v), path) == JsonTree(Unfold(h, v, path))
    ensures Unfold(h, v, path) != Leaf(Undefined)
  {
    hide Known, Closed, Unfold, JsonTree, JsonHeap;
    JsonHeapMap(h, v.id, m);
    UnfoldMap(h, v, path, m);
    UnfoldMap(JsonHeap(h), v, path, JsonHeap(h)[v.id].entries);
    var t, a := Unfold(h, v, path), Unfold(JsonHeap(h), v, path);
    JsonTreeMap(t);
    var b := JsonTree(t);
    forall k ensures k in a.entries <==> k in b.entries {
      if k in m { assert SameEntry(h, m[k], path + {v.id}); }
    }
    forall k | k in a.entries ensures a.entries[k] == b.entries[k] {
      assert SameEntry(h, m[k], path + {v.id});
    }
    assert a.entries == b.entries;
  }

  lemma {:induction false} JsonUnfoldList(h: Heap, v: Value, path: set<Id>, s: seq<Value>)
    requires Closed(h) && Known(h, v) && NoNilList(h) && v.Ref? && v.id !in path && h[v.id] == ListOf(s)
    requires Closed(JsonHeap(h)) && Known(JsonHeap(h), JsonValue(v))
    ensures Unfold(JsonHeap(h), JsonValue(v), path) == JsonTree(Unfold(h, v, path))
    ensures Unfold(h, v, path) != Leaf(Undefined)
    decreases Room(h, path), 0
  {
    RoomShrinks(h, v.id, path);
    var inside := path + {v.id};
    forall i | 0 <= i < |s|
      ensures Unfold(JsonHeap(h), JsonValue(s[i]), inside) == JsonTree(Unfold(h, s[i], inside))
    {
      JsonUnfold(h, s[i], inside);
    }
  }

  // ---- the walk ----

  /** What a call promises: nothing on a cycle, else a fresh copy of the JSON reading. */
  ghost predicate Cloned(j: Heap, path: set<Id>, v: Value, r: Option<Value>, h: Heap, low: Id)
    requires Closed(j) && Known(j, v)
  {
    match r
    case None => Flag(j, v, path)
    case Some(out) => Copied(j, path, v, out, false, h, low)
  }

  lemma ClonedPlain(j: Heap, path: set<Id>, v: Value, h: Heap, low: Id)
    requires Closed(j) && Known(j, v) && (v.Nil? || v.Scalar? || (v.Ref? && v.id in path))
    ensures Cloned(j, path, v, if v.Ref? then None else Some(v), h, low)
  {
  }

  lemma ClonedCycle(j: Heap, path: set<Id>, id: Id, child: Value, h: Heap, low: Id)
    requires Closed(j) && id in j && id !in path && HasChild(j[id], child) && Known(j, child)
    requires Flag(j, child, path + {id})
    ensures Cloned(j, path, Ref(id), None, h, low)
  {
    FlagChild(j, id, child, path);
  }

  lemma JsonEntry(h: Heap, id: Id, k: string)
    requires id in h && h[id].MapOf? && k in h[id].entries && h[id].entries[k] != Undefined
    ensures JsonHeap(h)[id].MapOf? && k in JsonHeap(h)[id].entries
    ensures JsonHeap(h)[id].entries[k] == JsonValue(h[id].entries[k])
    ensures HasChild(JsonHeap(h)[id], JsonValue(h[id].entries[k]))
  {
    assert JsonHeap(h)[id].entries[k] == JsonValue(h[id].entries[k]);
  }

  lemma JsonItem(h: Heap, id: Id, i: nat)
    requires id in h && h[id].ListOf? && i < |h[id].items|
    ensures JsonHeap(h)[id].ListOf? && |JsonHeap(h)[id].items| == |h[id].items|
    ensures JsonHeap(h)[id].items[i] == JsonValue(h[id].items[i])
    ensures HasChild(JsonHeap(h)[id], JsonValue(h[id].items[i]))
  {
    assert JsonHeap(h)[id].items[i] == JsonValue(h[id].items[i]);
  }

  /** The defined entries not looked at yet. */
  ghost predicate DefinedLeft(entries: map<string, Value>, done: map<string, Value>, keys: set<string>) {
    keys <= entries.Keys && forall k :: k in done <==> k in entries && k !in keys && entries[k] != Undefined
  }

  lemma DefinedStep(entries: map<string, Value>, done: map<string, Value>, keys: set<string>, k: string, v: Value)
    requires DefinedLeft(entries, done, keys) && k in keys
    ensures k in entries && |keys - {k}| < |keys|
    ensures entries[k] == Undefined ==> DefinedLeft(entries, done, keys - {k})
    ensures entries[k] != Undefined ==> DefinedLeft(entries, done[k := v], keys - {k})
  {
  }

  lemma DefinedEnd(h: Heap, id0: Id, done: map<string, Value>)
    requires id0 in h && h[id0].MapOf? && DefinedLeft(h[id0].entries, done, {})
    ensures JsonHeap(h)[id0].MapOf? && Left(JsonHeap(h)[id0].entries, done, {})
  {
    assert JsonHeap(h)[id0].entries.Keys == done.Keys;
  }

  method CloneJson(mem: Memory, seen: Seen, v: Value, ghost h0: Heap, ghost j: Heap) returns (r: Option<Value>)
    requires mem.Valid() && Closed(h0) && Extends(h0, mem.cells) && Known(h0, v)
    requires j == JsonHeap(h0) && Closed(j) && Known(j, JsonValue(v)) && j.Keys == h0.Keys
    modifies mem, seen
    ensures mem.Valid() && Extends(old(mem.cells), mem.cells) && mem.next >= old(mem.next)
    ensures r.Some? ==> seen.ids == old(seen.ids)
    ensures Cloned(j, old(seen.ids), JsonValue(v), r, mem.cells, old(mem.next))
    decreases Room(h0, seen.ids), 1
  {
    hide Closed, Room, ChildrenKnown, JsonHeap, Cloned, Extends;
    ExtendsAt(h0, mem.cells, 0);
    if v == Nil || v.Scalar? {
      ClonedPlain(j, seen.ids, v, mem.cells, mem.next);
      return Some(v);
    }
    if v.Ref? {
      ExtendsAt(h0, mem.cells, v.id);
      if v.id in seen.ids {
        ClonedPlain(j, seen.ids, v, mem.cells, mem.next);
        return None;
      }
      match mem.cells[v.id]
      case MapOf(_) => r := CloneObject(mem, seen, v, h0, j);
      case ListOf(_) => r := CloneArray(mem, seen, v, h0, j);
    } else {
      ClonedPlain(j, seen.ids, Nil, mem.cells, mem.next);
      return Some(Nil);
    }
  }

  method CloneObject(mem: Memory, seen: Seen, v: Value, ghost h0: Heap, ghost j: Heap) returns (r: Option<Value>)
    requires mem.Valid() && Closed(h0) && Extends(h0, mem.cells)
    requires j == JsonHeap(h0) && Closed(j) && j.Keys == h0.Keys
    requires v.Ref? && v.id in h0 && v.id in mem.cells && h0[v.id].MapOf? && v.id !in seen.ids
    modifies mem, seen
    ensures mem.Valid() && Extends(old(mem.cells), mem.cells) && mem.next >= old(mem.next)
    ensures r.Some? ==> seen.ids == old(seen.ids)
    ensures Cloned(j, old(seen.ids), v, r, mem.cells, old(mem.next))
    decreases Room(h0, seen.ids), 0
  {
    hide Closed, Room, ChildrenKnown, JsonHeap, Extends, Copied, Midway, DefinedLeft;
    ExtendsAt(h0, mem.cells, v.id);
    var entries := mem.cells[v.id].entries;
    ContainerKnown(h0, v.id);
    JsonMap(h0, v.id);
    ContainerKnown(j, v.id);
    ghost var shown := j[v.id].entries;
    RoomShrinks(h0, v.id, seen.ids);
    seen.ids := seen.ids + {v.id};
    ghost var inside := seen.ids;
    NothingKnown(mem.cells);
    var id := mem.Allocate(MapOf(map[]));
    ExtendsNew(h0, old(mem.cells), mem.cells, id);
    var done: map<string, Value> := map[];
    var keys := entries.Keys;
    MidwayStart(j, shown, inside, mem.cells, id);
    DefinedStart(entries);
    while keys != {}
      invariant DefinedLeft(entries, done, keys)
      invariant mem.Valid() && id < mem.next && id !in old(mem.cells) && id !in h0
      invariant Extends(old(mem.cells), mem.cells) && Extends(h0, mem.cells)
      invariant seen.ids == inside
      invariant Midway(j, shown, inside, mem.cells, id, done, false)
      decreases |keys|
    {
      var k :| k in keys;
      DefinedStep(entries, done, keys, k, Nil);
      if entries[k] != Undefined {
        JsonEntry(h0, v.id, k);
        EntryKnown(h0, v.id, k);
        EntryKnown(j, v.id, k);
        ghost var before, mark := mem.cells, mem.next;
        var copied := CloneJson(mem, seen, entries[k], h0, j);
        MidwayAt(j, shown, inside, before, id, done, false);
        ghost var c := MapOf(done[k := if copied.Some? then copied.value else Nil]);
        ExtendsOver(h0, before, mem.cells, id, c);
        ExtendsOver(old(mem.cells), before, mem.cells, id, c);
        if copied.None? {
          ClonedCycle(j, old(seen.ids), v.id, shown[k], mem.cells, old(mem.next));
          return None;
        }
        ghost var after := mem.cells[id := MapOf(done[k := copied.value])];
        MidwayStep(j, shown, inside, before, mem.cells, after, id, done, false, k, copied.value, false, mark);
        DefinedStep(entries, done, keys, k, copied.value);
        done := done[k := copied.value];
        mem.Store(id, MapOf(done));
      }
      keys := keys - {k};
    }
    seen.ids := seen.ids - {v.id};
    assert seen.ids == old(seen.ids);
    DefinedEnd(h0, v.id, done);
    MidwayEnd(j, v.id, seen.ids, mem.cells, id, done, false);
    r := Some(Ref(id));
  }

  lemma DefinedStart(entries: map<string, Value>)
    ensures DefinedLeft(entries, map[], entries.Keys)
  {
  }

  lemma JsonMap(h: Heap, id: Id)
    requires id in h && h[id].MapOf?
    ensures id in JsonHeap(h) && JsonHeap(h)[id].MapOf?
  {
  }

  lemma JsonList(h: Heap, id: Id)
    requires id in h && h[id].ListOf?
    ensures id in JsonHeap(h) && JsonHeap(h)[id].ListOf? && |JsonHeap(h)[id].items| == |h[id].items|
  {
  }

  lemma EntryKnown(h: Heap, id: Id, k: string)
    requires Closed(h) && id in h && h[id].MapOf? && k in h[id].entries
    ensures Known(h, h[id].entries[k])
  {
  }

  lemma ItemKnown(h: Heap, id: Id, i: nat)
    requires Closed(h) && id in h && h[id].ListOf? && i < |h[id].items|
    ensures Known(h, h[id].items[i])
  {
  }

  /** Container `id` holds the copies of the first items, none of which came back. */
  ghost predicate MidArray(j: Heap, items: seq<Value>, inside: set<Id>, h: Heap, id: Id, done: seq<Value>)
    requires Closed(j) && ChildrenKnown(j, ListOf(items))
  {
    && |done| <= |items| && id in h && h[id] == ListOf(done)
    && ItemsDone(j, items, inside, h, done, id + 1)
    && !ItemsFlag(j, items, inside, |done|)
  }

  lemma MidArrayStart(j: Heap, items: seq<Value>, inside: set<Id>, h: Heap, id: Id)
    requires Closed(j) && ChildrenKnown(j, ListOf(items)) && id in h && h[id] == ListOf([])
    ensures MidArray(j, items, inside, h, id, [])
  {
  }

  lemma MidArrayAt(j: Heap, items: seq<Value>, inside: set<Id>, h: Heap, id: Id, done: seq<Value>)
    requires Closed(j) && ChildrenKnown(j, ListOf(items)) && MidArray(j, items, inside, h, id, done)
    ensures id in h && |done| <= |items|
  {
  }

  lemma MidArrayStep(j: Heap, items: seq<Value>, inside: set<Id>, before: Heap, during: Heap, after: Heap,
                     id: Id, done: seq<Value>, copied: Value, mark: Id)
    requires Closed(j) && ChildrenKnown(j, ListOf(items)) && |done| < |items| && Known(j, items[|done|])
    requires MidArray(j, items, inside, before, id, done)
    requires Extends(before, during) && after == during[id := ListOf(done + [copied])]
    requires id < mark && Copied(j, inside, items[|done|], copied, false, during, mark)
    ensures MidArray(j, items, inside, after, id, done + [copied])
    ensures ChildrenKnown(during, ListOf(done + [copied]))
  {
    hide Unfold, Rep, Flag, Closed, ChildrenKnown, ItemsDone, ItemsFlag;
    ItemDone(j, items, inside, before, during, done, id + 1, copied, mark);
    ItemsKept(j, items, inside, during, after, done + [copied], id + 1);
    ItemFlag(j, items, inside, |done|);
  }

  lemma MidArrayEnd(j: Heap, id0: Id, path: set<Id>, h: Heap, id: Id, done: seq<Value>)
    requires Closed(j) && id0 in j && j[id0].ListOf? && id0 !in path && ChildrenKnown(j, j[id0])
    requires MidArray(j, j[id0].items, path + {id0}, h, id, done) && |done| == |j[id0].items|
    ensures Copied(j, path, Ref(id0), Ref(id), false, h, id)
  {
    hide Unfold, Rep, Flag, Closed, ItemsDone;
    ListCopied(j, Ref(id0), j[id0].items, path, path + {id0}, h, id, id);
  }

  method CloneArray(mem: Memory, seen: Seen, v: Value, ghost h0: Heap, ghost j: Heap) returns (r: Option<Value>)
    requires mem.Valid() && Closed(h0) && Extends(h0, mem.cells)
    requires j == JsonHeap(h0) && Closed(j) && j.Keys == h0.Keys
    requires v.Ref? && v.id in h0 && v.id in mem.cells && h0[v.id].ListOf? && v.id !in seen.ids
    modifies mem, seen
    ensures mem.Valid() && Extends(old(mem.cells), mem.cells) && mem.next >= old(mem.next)
    ensures r.Some? ==> seen.ids == old(seen.ids)
    ensures Cloned(j, old(seen.ids), v, r, mem.cells, old(mem.next))
    decreases Room(h0, seen.ids), 0
  {
    hide Closed, Room, ChildrenKnown, JsonHeap, Extends, Copied, MidArray;
    ExtendsAt(h0, mem.cells, v.id);
    var items := mem.cells[v.id].items;
    ContainerKnown(h0, v.id);
    JsonList(h0, v.id);
    ContainerKnown(j, v.id);
    ghost var shown := j[v.id].items;
    RoomShrinks(h0, v.id, seen.ids);
    seen.ids := seen.ids + {v.id};
    ghost var inside := seen.ids;
    NothingKnown(mem.cells);
    var id := mem.Allocate(ListOf([]));
    ExtendsNew(h0, old(mem.cells), mem.cells, id);
    var done: seq<Value> := [];
    MidArrayStart(j, shown, inside, mem.cells, id);
    for i := 0 to |items|
      invariant |done| == i
      invariant mem.Valid() && id < mem.next && id !in old(mem.cells) && id !in h0
      invariant Extends(old(mem.cells), mem.cells) && Extends(h0, mem.cells)
      invariant seen.ids == inside
      invariant MidArray(j, shown, inside, mem.cells, id, done)
    {
      JsonItem(h0, v.id, i);
      ItemKnown(h0, v.id, i);
      ItemKnown(j, v.id, i);
      ghost var before, mark := mem.cells, mem.next;
      var copied := CloneJson(mem, seen, items[i], h0, j);
      MidArrayAt(j, shown, inside, before, id, done);
      ghost var c := ListOf(done + [if copied.Some? then copied.value else Nil]);
      ExtendsOver(h0, before, mem.cells, id, c);
      ExtendsOver(old(mem.cells), before, mem.cells, id, c);
      if copied.None? {
        ClonedCycle(j, old(seen.ids), v.id, shown[i], mem.cells, old(mem.next));
        return None;
      }
      ghost var after := mem.cells[id := ListOf(done + [copied.value])];
      MidArrayStep(j, shown, inside, before, mem.cells, after, id, done, copied.value, mark);
      done := done + [copied.value];
      mem.Store(id, ListOf(done));
    }
    seen.ids := seen.ids - {v.id};
    assert seen.ids == old(seen.ids);
    MidArrayEnd(j, v.id, seen.ids, mem.cells, id, done);
    r := Some(Ref(id));
  }

  /** The early exit gives the same verdict as Go's complete walk, and otherwise the same tree,
      read as JSON. */
  method DeepCopyJson(mem: Memory, v: Value) returns (r: Option<Value>)
    requires mem.Valid() && Known(mem.cells, v)
    modifies mem
    ensures mem.Valid() && Extends(old(mem.cells), mem.cells)
    ensures r.None? <==> Flag(old(mem.cells), v, {})
    ensures r.Some? && NoNilList(old(mem.cells)) && v != NilList ==>
              Rep(mem.cells, r.value, JsonTree(Unfold(old(mem.cells), v, {})), old(mem.next))
  {
    hide Unfold, Rep, Flag, Closed, JsonHeap;
    ghost var h0 := mem.cells;
    ghost var j := JsonHeap(h0);
    JsonClosed(h0);
    var seen := new Seen();
    r := CloneJson(mem, seen, v, h0, j);
    JsonFlag(h0, v, {});
    if NoNilList(h0) && v != NilList { JsonUnfold(h0, v, {}); }
  }
}
