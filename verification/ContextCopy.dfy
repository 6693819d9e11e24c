/** The copies as the code makes them: containers in memory, a set of containers
    under way that is added to and deleted from in place. */
module ContextCopy {
  import opened ContextGraph

  ghost predicate ChildrenKnown(h: Heap, c: Container) {
    match c
    case MapOf(m) => forall k :: k in m ==> Known(h, m[k])
    case ListOf(s) => forall i :: 0 <= i < |s| ==> Known(h, s[i])
  }

  lemma ClosedWith(h: Heap, id: Id, c: Container)
    requires Closed(h) && ChildrenKnown(h, c)
    ensures Closed(h[id := c])
  {
  }

  /** The containers allocated so far. */
  class Memory {
    var cells: Heap
    var next: Id

    ghost predicate Valid()
      reads this
    {
      Closed(cells) && forall id :: id in cells ==> id < next
    }

    constructor (cells: Heap, next: Id)
      requires Closed(cells) && forall id :: id in cells ==> id < next
      ensures Valid() && this.cells == cells && this.next == next
    {
      this.cells := cells;
      this.next := next;
    }

    method Allocate(c: Container) returns (id: Id)
      requires Valid() && ChildrenKnown(cells, c)
      modifies this
      ensures Valid() && id == old(next) && next == old(next) + 1 && cells == old(cells)[id := c]
    {
      hide Closed, ChildrenKnown;
      ClosedWith(cells, next, c);
      id := next;
      cells := cells[id := c];
      next := next + 1;
    }

    method Store(id: Id, c: Container)
      requires Valid() && id in cells && ChildrenKnown(cells, c)
      modifies this`cells
      ensures Valid() && cells == old(cells)[id := c]
    {
      hide Closed, ChildrenKnown;
      ClosedWith(cells, id, c);
      cells := cells[id := c];
    }
  }

  /** The containers on the recursion path. */
  class Seen {
    var ids: set<Id>

    constructor ()
      ensures ids == {}
    {
      ids := {};
    }
  }

  ghost predicate Extends(h: Heap, h': Heap) {
    forall id :: id in h ==> id in h' && h'[id] == h[id]
  }

  /** `v` stands for the tree `t`, in containers numbered `low` or higher, children after parents. */
  ghost predicate Rep(h: Heap, v: Value, t: Tree, low: Id)
    decreases t
  {
    match t
    case Leaf(x) => v == x && !x.Ref? && !x.NilMap? && !x.NilList?
    case Branch(m) =>
      && v.Ref? && low <= v.id && v.id in h && h[v.id].MapOf? && h[v.id].entries.Keys == m.Keys
      && forall k :: k in m ==> Rep(h, h[v.id].entries[k], m[k], v.id + 1)
    case Row(s) =>
      && v.Ref? && low <= v.id && v.id in h && h[v.id].ListOf? && |h[v.id].items| == |s|
      && forall i :: 0 <= i < |s| ==> Rep(h, h[v.id].items[i], s[i], v.id + 1)
  }

  /** A call inside the loop, then the loop's own store into its new container. */
  lemma ExtendsOver(h: Heap, before: Heap, during: Heap, id: Id, c: Container)
    requires Extends(h, before) && Extends(before, during) && id in before && id !in h
    ensures Extends(h, during) && Extends(h, during[id := c]) && id in during && during[id] == before[id]
    ensures forall low :: SameFrom(before, during, low)
    ensures SameFrom(during, during[id := c], id + 1)
  {
  }

  ghost predicate SameFrom(h: Heap, h': Heap, low: Id) {
    forall id :: id in h && low <= id ==> id in h' && h'[id] == h[id]
  }

  lemma {:induction false} RepKept(h: Heap, h': Heap, v: Value, t: Tree, low: Id)
    requires Rep(h, v, t, low) && SameFrom(h, h', low)
    ensures Rep(h', v, t, low)
    decreases t
  {
    match t
    case Leaf(_) =>
    case Branch(m) =>
      forall k | k in m ensures Rep(h', h[v.id].entries[k], m[k], v.id + 1) {
        RepKept(h, h', h[v.id].entries[k], m[k], v.id + 1);
      }
    case Row(s) =>
      forall i | 0 <= i < |s| ensures Rep(h', h[v.id].items[i], s[i], v.id + 1) {
        RepKept(h, h', h[v.id].items[i], s[i], v.id + 1);
      }
  }

  lemma RepLow(h: Heap, v: Value, t: Tree, low: Id, low': Id)
    requires Rep(h, v, t, low) && low' <= low
    ensures Rep(h, v, t, low') && Known(h, v)
  {
  }

  /** The entries copied so far stand for the unfoldings of the originals. */
  ghost predicate EntriesDone(h0: Heap, entries: map<string, Value>, path: set<Id>,
                              h: Heap, done: map<string, Value>, low: Id)
    requires Closed(h0) && ChildrenKnown(h0, MapOf(entries))
  {
    forall k :: k in done ==> k in entries && Rep(h, done[k], Unfold(h0, entries[k], path), low)
  }

  ghost predicate ItemsDone(h0: Heap, items: seq<Value>, path: set<Id>, h: Heap, done: seq<Value>, low: Id)
    requires Closed(h0) && ChildrenKnown(h0, ListOf(items))
  {
    |done| <= |items| && forall i :: 0 <= i < |done| ==> Rep(h, done[i], Unfold(h0, items[i], path), low)
  }

  lemma EntryDone(h0: Heap, entries: map<string, Value>, path: set<Id>, before: Heap, during: Heap,
                  done: map<string, Value>, low: Id, k: string, copied: Value, mark: Id)
    requires Closed(h0) && ChildrenKnown(h0, MapOf(entries)) && k in entries
    requires EntriesDone(h0, entries, path, before, done, low) && SameFrom(before, during, low)
    requires low <= mark && Rep(during, copied, Unfold(h0, entries[k], path), mark)
    ensures EntriesDone(h0, entries, path, during, done[k := copied], low)
    ensures ChildrenKnown(during, MapOf(done[k := copied]))
  {
    hide Unfold, Rep, SameFrom, Closed;
    var now := done[k := copied];
    forall j | j in now ensures Rep(during, now[j], Unfold(h0, entries[j], path), low) && Known(during, now[j]) {
      var u := Unfold(h0, entries[j], path);
      if j == k { RepLow(during, copied, u, mark, low); } else { RepKept(before, during, done[j], u, low); }
      RepLow(during, now[j], u, low, low);
    }
  }

  lemma ItemDone(h0: Heap, items: seq<Value>, path: set<Id>, before: Heap, during: Heap,
                 done: seq<Value>, low: Id, copied: Value, mark: Id)
    requires Closed(h0) && ChildrenKnown(h0, ListOf(items)) && |done| < |items|
    requires ItemsDone(h0, items, path, before, done, low) && SameFrom(before, during, low)
    requires low <= mark && Rep(during, copied, Unfold(h0, items[|done|], path), mark)
    ensures ItemsDone(h0, items, path, during, done + [copied], low)
    ensures ChildrenKnown(during, ListOf(done + [copied]))
  {
    hide Unfold, Rep, SameFrom, Closed;
    var now := done + [copied];
    forall j | 0 <= j < |now| ensures Rep(during, now[j], Unfold(h0, items[j], path), low) && Known(during, now[j]) {
      var u := Unfold(h0, items[j], path);
      if j == |done| { RepLow(during, copied, u, mark, low); } else { RepKept(before, during, done[j], u, low); }
      RepLow(during, now[j], u, low, low);
    }
  }

  lemma EntriesKept(h0: Heap, entries: map<string, Value>, path: set<Id>, h: Heap, h': Heap,
                    done: map<string, Value>, low: Id)
    requires Closed(h0) && ChildrenKnown(h0, MapOf(entries))
    requires EntriesDone(h0, entries, path, h, done, low) && SameFrom(h, h', low)
    ensures EntriesDone(h0, entries, path, h', done, low)
  {
    hide Unfold, Rep, SameFrom, Closed;
    forall j | j in done ensures Rep(h', done[j], Unfold(h0, entries[j], path), low) {
      RepKept(h, h', done[j], Unfold(h0, entries[j], path), low);
    }
  }

  lemma ItemsKept(h0: Heap, items: seq<Value>, path: set<Id>, h: Heap, h': Heap, done: seq<Value>, low: Id)
    requires Closed(h0) && ChildrenKnown(h0, ListOf(items))
    requires ItemsDone(h0, items, path, h, done, low) && SameFrom(h, h', low)
    ensures ItemsDone(h0, items, path, h', done, low)
  {
    hide Unfold, Rep, SameFrom, Closed;
    forall j | 0 <= j < |done| ensures Rep(h', done[j], Unfold(h0, items[j], path), low) {
      RepKept(h, h', done[j], Unfold(h0, items[j], path), low);
    }
  }

  /** Some entry among `keys` meets a container again. */
  ghost predicate EntriesFlag(h0: Heap, entries: map<string, Value>, path: set<Id>, keys: set<string>)
    requires Closed(h0) && ChildrenKnown(h0, MapOf(entries))
  {
    exists k :: k in keys && k in entries && Flag(h0, entries[k], path)
  }

  ghost predicate ItemsFlag(h0: Heap, items: seq<Value>, path: set<Id>, n: nat)
    requires Closed(h0) && ChildrenKnown(h0, ListOf(items)) && n <= |items|
  {
    exists i :: 0 <= i < n && Flag(h0, items[i], path)
  }

  lemma NoFlagYet(h0: Heap, entries: map<string, Value>, items: seq<Value>, path: set<Id>)
    requires Closed(h0) && ChildrenKnown(h0, MapOf(entries)) && ChildrenKnown(h0, ListOf(items))
    ensures !EntriesFlag(h0, entries, path, {}) && !ItemsFlag(h0, items, path, 0)
  {
  }

  lemma EntryFlag(h0: Heap, entries: map<string, Value>, path: set<Id>, done: map<string, Value>, k: string, v: Value)
    requires Closed(h0) && ChildrenKnown(h0, MapOf(entries)) && k in entries
    ensures EntriesFlag(h0, entries, path, done[k := v].Keys)
            == (EntriesFlag(h0, entries, path, done.Keys) || Flag(h0, entries[k], path))
  {
    hide Flag;
  }

  lemma ItemFlag(h0: Heap, items: seq<Value>, path: set<Id>, i: nat)
    requires Closed(h0) && ChildrenKnown(h0, ListOf(items)) && i < |items|
    ensures ItemsFlag(h0, items, path, i + 1) == (ItemsFlag(h0, items, path, i) || Flag(h0, items[i], path))
  {
    hide Flag;
    if ItemsFlag(h0, items, path, i) {
      var j :| 0 <= j < i && Flag(h0, items[j], path);
      assert 0 <= j < i + 1;
    }
  }

  /** The entries not copied yet. */
  predicate Left(entries: map<string, Value>, done: map<string, Value>, keys: set<string>) {
    keys <= entries.Keys && done.Keys == entries.Keys - keys
  }

  lemma LeftStep(entries: map<string, Value>, done: map<string, Value>, keys: set<string>, k: string, v: Value)
    requires Left(entries, done, keys)
    ensures keys == {} ==> done.Keys == entries.Keys
    ensures k in keys ==> k in entries && Left(entries, done[k := v], keys - {k}) && |keys - {k}| < |keys|
  {
  }

  lemma MapCopied(h0: Heap, id0: Id, path: set<Id>, h: Heap, id: Id, low: Id)
    requires Closed(h0) && id0 in h0 && h0[id0].MapOf? && id0 !in path
    requires ChildrenKnown(h0, h0[id0])
    requires id in h && h[id].MapOf? && low <= id && h[id].entries.Keys == h0[id0].entries.Keys
    requires EntriesDone(h0, h0[id0].entries, path + {id0}, h, h[id].entries, id + 1)
    ensures Rep(h, Ref(id), Unfold(h0, Ref(id0), path), low)
    ensures Flag(h0, Ref(id0), path) == EntriesFlag(h0, h0[id0].entries, path + {id0}, h[id].entries.Keys)
  {
  }

  lemma ListCopied(h0: Heap, v: Value, items: seq<Value>, path: set<Id>, inside: set<Id>, h: Heap, id: Id, low: Id)
    requires Closed(h0) && Known(h0, v)
    requires (v == NilList && items == [] && inside == path) ||
             (v.Ref? && h0[v.id] == ListOf(items) && v.id !in path && inside == path + {v.id})
    requires ChildrenKnown(h0, ListOf(items))
    requires id in h && h[id].ListOf? && low <= id && |h[id].items| == |items|
    requires ItemsDone(h0, items, inside, h, h[id].items, id + 1)
    ensures Rep(h, Ref(id), Unfold(h0, v, path), low)
    ensures Flag(h0, v, path) == ItemsFlag(h0, items, inside, |items|)
  {
  }

  lemma ContainerKnown(h: Heap, id: Id)
    requires Closed(h) && id in h
    ensures ChildrenKnown(h, h[id])
  {
  }

  // ---- Go ----

  /** What a copying call promises: the cycle flag, and a fresh copy of the cut unfolding. */
  ghost predicate Copied(h0: Heap, path: set<Id>, v: Value, out: Value, cyclic: bool, h: Heap, low: Id)
    requires Closed(h0) && Known(h0, v)
  {
    cyclic == Flag(h0, v, path) && Rep(h, out, Unfold(h0, v, path), low)
  }

  lemma CopiedPlain(h0: Heap, path: set<Id>, v: Value, h: Heap, low: Id)
    requires Closed(h0) && Known(h0, v) && !v.NilList? && (v.Ref? ==> v.id in path)
    ensures Copied(h0, path, v, if v.Ref? || v.NilMap? then Nil else v, v.Ref?, h, low)
  {
  }

  lemma ExtendsAt(h: Heap, h': Heap, id: Id)
    requires Extends(h, h')
    ensures Extends(h', h') && (id in h ==> id in h' && h'[id] == h[id])
  {
  }

  lemma ExtendsNew(h0: Heap, h: Heap, h': Heap, id: Id)
    requires Extends(h0, h) && id !in h && id in h' && h' == h[id := h'[id]]
    ensures Extends(h, h') && Extends(h0, h') && id !in h0
  {
  }

  /** Container `id` holds the copies of the entries done so far. */
  ghost predicate Midway(h0: Heap, entries: map<string, Value>, inside: set<Id>, h: Heap, id: Id,
                         done: map<string, Value>, cyclic: bool)
    requires Closed(h0) && ChildrenKnown(h0, MapOf(entries))
  {
    && id in h && h[id] == MapOf(done)
    && EntriesDone(h0, entries, inside, h, done, id + 1)
    && cyclic == EntriesFlag(h0, entries, inside, done.Keys)
  }

  lemma MidwayStart(h0: Heap, entries: map<string, Value>, inside: set<Id>, h: Heap, id: Id)
    requires Closed(h0) && ChildrenKnown(h0, MapOf(entries)) && id in h && h[id] == MapOf(map[])
    ensures Midway(h0, entries, inside, h, id, map[], false) && Left(entries, map[], entries.Keys)
  {
    var none: map<string, Value> := map[];
    assert none.Keys == {};
  }

  lemma MidwayEnd(h0: Heap, id0: Id, path: set<Id>, h: Heap, id: Id, done: map<string, Value>, cyclic: bool)
    requires Closed(h0) && id0 in h0 && h0[id0].MapOf? && id0 !in path && ChildrenKnown(h0, h0[id0])
    requires Midway(h0, h0[id0].entries, path + {id0}, h, id, done, cyclic) && Left(h0[id0].entries, done, {})
    ensures Copied(h0, path, Ref(id0), Ref(id), cyclic, h, id)
  {
    hide Unfold, Rep, Flag, Closed, EntriesDone;
    MapCopied(h0, id0, path, h, id, id);
  }

  lemma MidwayStep(h0: Heap, entries: map<string, Value>, inside: set<Id>, before: Heap, during: Heap, after: Heap,
                   id: Id, done: map<string, Value>, cyclic: bool, k: string, copied: Value, hit: bool, mark: Id)
    requires Closed(h0) && ChildrenKnown(h0, MapOf(entries)) && k in entries && Known(h0, entries[k])
    requires Midway(h0, entries, inside, before, id, done, cyclic)
    requires Extends(before, during) && after == during[id := MapOf(done[k := copied])]
    requires id < mark && Copied(h0, inside, entries[k], copied, hit, during, mark)
    ensures Midway(h0, entries, inside, after, id, done[k := copied], cyclic || hit)
    ensures ChildrenKnown(during, MapOf(done[k := copied]))
  {
    hide Unfold, Rep, Flag, Closed, ChildrenKnown, EntriesDone, EntriesFlag;
    EntryDone(h0, entries, inside, before, during, done, id + 1, k, copied, mark);
    EntriesKept(h0, entries, inside, during, after, done[k := copied], id + 1);
    EntryFlag(h0, entries, inside, done, k, copied);
  }

  method CopyMap(mem: Memory, seen: Seen, m: Value, ghost h0: Heap) returns (out: Value, cyclic: bool)
    requires mem.Valid() && Closed(h0) && Extends(h0, mem.cells)
    requires m == NilMap || (m.Ref? && m.id in h0 && h0[m.id].MapOf?)
    modifies mem, seen
    ensures mem.Valid() && Extends(old(mem.cells), mem.cells) && seen.ids == old(seen.ids)
    ensures mem.next >= old(mem.next)
    ensures Copied(h0, old(seen.ids), m, out, cyclic, mem.cells, old(mem.next))
    decreases Room(h0, seen.ids), 0
  {
    hide Closed, Room, ChildrenKnown, Extends, Copied, Midway, Left;
    ExtendsAt(h0, mem.cells, 0);
    if m == NilMap || m.id in seen.ids {
      CopiedPlain(h0, seen.ids, m, mem.cells, mem.next);
      return Nil, m != NilMap;
    }
    ExtendsAt(h0, mem.cells, m.id);
    var entries := mem.cells[m.id].entries;
    ContainerKnown(h0, m.id);
    RoomShrinks(h0, m.id, seen.ids);
    seen.ids := seen.ids + {m.id};
    ghost var inside := seen.ids;
    NothingKnown(mem.cells);
    var id := mem.Allocate(MapOf(map[]));
    ExtendsNew(h0, old(mem.cells), mem.cells, id);
    var done: map<string, Value> := map[];
    var keys := entries.Keys;
    MidwayStart(h0, entries, inside, mem.cells, id);
    cyclic := false;
    while keys != {}
      invariant Left(entries, done, keys)
      invariant mem.Valid() && id < mem.next && id !in old(mem.cells) && id !in h0
      invariant Extends(old(mem.cells), mem.cells) && Extends(h0, mem.cells)
      invariant seen.ids == inside
      invariant Midway(h0, entries, inside, mem.cells, id, done, cyclic)
      decreases |keys|
    {
      var k :| k in keys;
      LeftStep(entries, done, keys, k, Nil);
      ChildKnown(h0, m.id, entries[k]);
      ghost var before, mark := mem.cells, mem.next;
      var copied, hit := CopyValue(mem, seen, entries[k], h0);
      LeftStep(entries, done, keys, k, copied);
      ghost var after := mem.cells[id := MapOf(done[k := copied])];
      MidwayAt(h0, entries, inside, before, id, done, cyclic);
      MidwayStep(h0, entries, inside, before, mem.cells, after, id, done, cyclic, k, copied, hit, mark);
      ExtendsOver(h0, before, mem.cells, id, MapOf(done[k := copied]));
      ExtendsOver(old(mem.cells), before, mem.cells, id, MapOf(done[k := copied]));
      if hit { cyclic := true; }
      done := done[k := copied];
      mem.Store(id, MapOf(done));
      keys := keys - {k};
    }
    seen.ids := seen.ids - {m.id};
    assert seen.ids == old(seen.ids);
    out := Ref(id);
    MidwayEnd(h0, m.id, seen.ids, mem.cells, id, done, cyclic);
  }

  lemma MidwayAt(h0: Heap, entries: map<string, Value>, inside: set<Id>, h: Heap, id: Id,
                 done: map<string, Value>, cyclic: bool)
    requires Closed(h0) && ChildrenKnown(h0, MapOf(entries)) && Midway(h0, entries, inside, h, id, done, cyclic)
    ensures id in h
  {
  }

  lemma NothingKnown(h: Heap)
    ensures ChildrenKnown(h, MapOf(map[])) && ChildrenKnown(h, ListOf([]))
  {
  }

  lemma NothingDone(h0: Heap, entries: map<string, Value>, items: seq<Value>, path: set<Id>, h: Heap, low: Id)
    requires Closed(h0) && ChildrenKnown(h0, MapOf(entries)) && ChildrenKnown(h0, ListOf(items))
    ensures EntriesDone(h0, entries, path, h, map[], low) && ItemsDone(h0, items, path, h, [], low)
  {
  }

  method CopyValue(mem: Memory, seen: Seen, v: Value, ghost h0: Heap) returns (out: Value, cyclic: bool)
    requires mem.Valid() && Closed(h0) && Extends(h0, mem.cells) && Known(h0, v)
    modifies mem, seen
    ensures mem.Valid() && Extends(old(mem.cells), mem.cells) && seen.ids == old(seen.ids)
    ensures mem.next >= old(mem.next)
    ensures Copied(h0, old(seen.ids), v, out, cyclic, mem.cells, old(mem.next))
    decreases Room(h0, seen.ids), 1
  {
    hide Rep, Unfold, Flag, Closed, Room, ItemsDone, ChildrenKnown, ItemsFlag, SameFrom;
    if v == NilMap || (v.Ref? && mem.cells[v.id].MapOf?) {
      out, cyclic := CopyMap(mem, seen, v, h0);
      return;
    }
    if v != NilList && (v.Ref? ==> v.id in seen.ids) {
      CopiedPlain(h0, seen.ids, v, mem.cells, mem.next);
      return if v.Ref? then Nil else v, v.Ref?;
    }
    var items := if v.Ref? then mem.cells[v.id].items else [];
    NothingKnown(h0);
    ghost var path := seen.ids;
    if v.Ref? {
      ContainerKnown(h0, v.id);
      RoomShrinks(h0, v.id, path);
      seen.ids := seen.ids + {v.id};
    }
    ghost var inside := seen.ids;
    NothingKnown(mem.cells);
    var id := mem.Allocate(ListOf([]));
    var done: seq<Value> := [];
    NothingDone(h0, map[], items, inside, mem.cells, id + 1);
    NoFlagYet(h0, map[], items, inside);
    cyclic := false;
    for i := 0 to |items|
      invariant |done| == i
      invariant mem.Valid() && Extends(old(mem.cells), mem.cells) && seen.ids == inside
      invariant Extends(h0, mem.cells) && id !in old(mem.cells)
      invariant id < mem.next && id in mem.cells && mem.cells[id] == ListOf(done)
      invariant cyclic == ItemsFlag(h0, items, inside, i)
      invariant ItemsDone(h0, items, inside, mem.cells, done, id + 1)
    {
      ghost var before, mark := mem.cells, mem.next;
      ChildKnown(h0, v.id, items[i]);
      var copied, hit := CopyValue(mem, seen, items[i], h0);
      if hit { cyclic := true; }
      ExtendsOver(h0, before, mem.cells, id, ListOf(done + [copied]));
      ExtendsOver(old(mem.cells), before, mem.cells, id, ListOf(done + [copied]));
      ItemFlag(h0, items, inside, i);
      ItemDone(h0, items, inside, before, mem.cells, done, id + 1, copied, mark);
      ghost var during := mem.cells;
      mem.Store(id, ListOf(done + [copied]));
      ItemsKept(h0, items, inside, during, mem.cells, done + [copied], id + 1);
      done := done + [copied];
    }
    if v.Ref? { seen.ids := seen.ids - {v.id}; }
    assert seen.ids == path;
    out := Ref(id);
    ListCopied(h0, v, items, path, inside, mem.cells, id, id);
  }
}
