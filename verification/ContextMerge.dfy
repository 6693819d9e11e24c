/** Merging context layers: later layers win, any layer's cycle marks the result. */
module ContextMerge {
  import opened ContextGraph
  import opened ContextCopy

  /** A context as callers hold it: attributes are a container in memory, or a nil map. */
  datatype Context = Context(targetingKey: string, attributes: Value, hadCyclicInput: bool)

  /** A context as a value: its attributes unfolded. */
  datatype Layer = Layer(targetingKey: string, entries: map<string, Tree>, cyclic: bool)

  const NO_LAYER := Layer("", map[], false)

  ghost predicate ContextIn(h: Heap, c: Context) {
    c.attributes == NilMap || (c.attributes.Ref? && c.attributes.id in h && h[c.attributes.id].MapOf?)
  }

  ghost function LayerOf(h: Heap, c: Context): Layer
    requires Closed(h) && ContextIn(h, c)
  {
    Layer(c.targetingKey,
          if c.attributes.Ref? then Unfold(h, c.attributes, {}).entries else map[],
          c.hadCyclicInput || Flag(h, c.attributes, {}))
  }

  function Over(low: Layer, high: Layer): Layer {
    Layer(if high.targetingKey != "" then high.targetingKey else low.targetingKey,
          low.entries + high.entries,
          low.cyclic || high.cyclic)
  }

  function Merge(layers: seq<Layer>): Layer {
    if layers == [] then NO_LAYER else Over(Merge(layers[..|layers| - 1]), layers[|layers| - 1])
  }

  // ---- what merging means ----

  /** Merging merged layers is merging all of them: grouping does not matter. */
  lemma {:induction false} MergeAppend(a: seq<Layer>, b: seq<Layer>)
    ensures Merge(a + b) == Over(Merge(a), Merge(b))
  {
    if b == [] {
      assert a + b == a;
      assert Merge(a).entries + map[] == Merge(a).entries;
    } else {
      var n := |b| - 1;
      MergeAppend(a, b[..n]);
      assert (a + b)[..|a + b| - 1] == a + b[..n];
      OverAssociative(Merge(a), Merge(b[..n]), b[n]);
    }
  }

  lemma OverAssociative(a: Layer, b: Layer, c: Layer)
    ensures Over(Over(a, b), c) == Over(a, Over(b, c))
  {
    assert a.entries + b.entries + c.entries == a.entries + (b.entries + c.entries);
  }

  lemma MergeOne(l: Layer)
    ensures Merge([l]) == l
  {
    assert Merge([l][..0]) == NO_LAYER;
    assert map[] + l.entries == l.entries;
  }

  /** Any bracketing of a merge gives the same context. */
  lemma MergeAssociative(a: seq<Layer>, b: seq<Layer>, c: seq<Layer>)
    ensures Merge([Merge(a + b), Merge(c)]) == Merge([Merge(a), Merge(b + c)]) == Merge(a + b + c)
  {
    MergeAppend(a, b);
    MergeAppend(b, c);
    MergeAppend(a + b, c);
    MergeTwo(Merge(a + b), Merge(c));
    MergeTwo(Merge(a), Merge(b + c));
    OverAssociative(Merge(a), Merge(b), Merge(c));
  }

  lemma MergeTwo(x: Layer, y: Layer)
    ensures Merge([x, y]) == Over(x, y)
  {
    MergeOne(x);
    assert [x, y][..1] == [x];
  }

  /** The last layer that has an attribute decides it. */
  lemma {:induction false} LastLayerWins(layers: seq<Layer>, i: nat, key: string)
    requires i < |layers| && key in layers[i].entries
    requires forall j :: i < j < |layers| ==> key !in layers[j].entries
    ensures key in Merge(layers).entries && Merge(layers).entries[key] == layers[i].entries[key]
  {
    if i < |layers| - 1 {
      LastLayerWins(layers[..|layers| - 1], i, key);
    }
  }

  /** An attribute of the result comes from some layer. */
  lemma {:induction false} EntryFromLayer(layers: seq<Layer>, key: string)
    requires key in Merge(layers).entries
    ensures exists i :: 0 <= i < |layers| && key in layers[i].entries
  {
    var n := |layers| - 1;
    if key in layers[n].entries {
    } else {
      EntryFromLayer(layers[..n], key);
      var i :| 0 <= i < n && key in layers[..n][i].entries;
      assert key in layers[i].entries;
    }
  }

  /** The last layer that sets a targeting key decides it; none is invented. */
  lemma {:induction false} LastTargetingKeyWins(layers: seq<Layer>, i: nat)
    requires i <= |layers| && (i < |layers| ==> layers[i].targetingKey != "")
    requires forall j :: (if i < |layers| then i + 1 else 0) <= j < |layers| ==> layers[j].targetingKey == ""
    ensures Merge(layers).targetingKey == if i < |layers| then layers[i].targetingKey else ""
  {
    var n := |layers| - 1;
    if layers != [] && i != n {
      LastTargetingKeyWins(layers[..n], if i < n then i else n);
    }
  }

  /** One cyclic layer is enough, even if every attribute of it is overridden. */
  lemma {:induction false} AnyLayerCyclic(layers: seq<Layer>)
    ensures Merge(layers).cyclic <==> exists i :: 0 <= i < |layers| && layers[i].cyclic
  {
    if layers != [] {
      var n := |layers| - 1;
      AnyLayerCyclic(layers[..n]);
      if Merge(layers[..n]).cyclic {
        var i :| 0 <= i < n && layers[..n][i].cyclic;
        assert layers[i].cyclic;
      }
      if i :| 0 <= i < n && layers[i].cyclic {
        assert layers[..n][i].cyclic;
      }
    }
  }

  // ---- the method ----

  /** `h` holds at `id` the merge of the layers so far. */
  ghost predicate Merged(h: Heap, id: Id, entries: map<string, Tree>) {
    Rep(h, Ref(id), Branch(entries), id)
  }

  lemma EmptyMerged(h: Heap, id: Id)
    requires id in h && h[id] == MapOf(map[])
    ensures Merged(h, id, map[])
  {
  }

  lemma MergedKept(h: Heap, h': Heap, id: Id, entries: map<string, Tree>)
    requires Merged(h, id, entries) && Extends(h, h')
    ensures Merged(h', id, entries)
  {
    RepKept(h, h', Ref(id), Branch(entries), id);
  }

  lemma MergedOver(h: Heap, id: Id, low: map<string, Tree>, from: Id, high: map<string, Tree>)
    requires Merged(h, id, low) && Rep(h, Ref(from), Branch(high), from) && id < from
    ensures var c := MapOf(h[id].entries + h[from].entries);
            Merged(h[id := c], id, low + high) && ChildrenKnown(h, c)
  {
    hide SameFrom;
    var c := MapOf(h[id].entries + h[from].entries);
    var h' := h[id := c];
    SameAbove(h, id, c);
    forall k | k in low + high
      ensures Rep(h', c.entries[k], (low + high)[k], id + 1) && Known(h, c.entries[k])
    {
      if k in high {
        RepLow(h, c.entries[k], high[k], from + 1, id + 1);
        RepKept(h, h', c.entries[k], high[k], id + 1);
      } else {
        RepLow(h, c.entries[k], low[k], id + 1, id + 1);
        RepKept(h, h', c.entries[k], low[k], id + 1);
      }
    }
    assert c.entries.Keys == (low + high).Keys;
  }

  lemma SameAbove(h: Heap, id: Id, c: Container)
    ensures SameFrom(h, h[id := c], id + 1)
  {
  }

  ghost function LayersOf(h: Heap, contexts: seq<Context>): (r: seq<Layer>)
    requires Closed(h) && forall i :: 0 <= i < |contexts| ==> ContextIn(h, contexts[i])
    ensures |r| == |contexts| && forall i :: 0 <= i < |r| ==> r[i] == LayerOf(h, contexts[i])
  {
    seq(|contexts|, i requires 0 <= i < |contexts| => LayerOf(h, contexts[i]))
  }

  lemma CopiedLayer(h0: Heap, c: Context, out: Value, cyclic: bool, h: Heap, low: Id)
    requires Closed(h0) && ContextIn(h0, c) && Copied(h0, {}, c.attributes, out, cyclic, h, low)
    ensures LayerOf(h0, c).cyclic == (c.hadCyclicInput || cyclic)
    ensures if out.Ref? then low <= out.id && Rep(h, out, Branch(LayerOf(h0, c).entries), out.id)
            else LayerOf(h0, c).entries == map[]
    ensures out.Ref? ==> out.id in h && h[out.id].MapOf?
  {
  }

  method MergeContexts(mem: Memory, layers: seq<Context>) returns (out: Context)
    requires mem.Valid() && forall i :: 0 <= i < |layers| ==> ContextIn(mem.cells, layers[i])
    modifies mem
    ensures mem.Valid() && Extends(old(mem.cells), mem.cells)
    ensures var m := Merge(LayersOf(old(mem.cells), layers));
            && out.targetingKey == m.targetingKey && out.hadCyclicInput == m.cyclic
            && out.attributes == Ref(old(mem.next)) && Merged(mem.cells, old(mem.next), m.entries)
  {
    hide Merged, Unfold, Flag, Rep, Closed, ChildrenKnown, Merge, Extends, Copied;
    ghost var h0 := mem.cells;
    ghost var all := LayersOf(h0, layers);
    NothingKnown(mem.cells);
    var id := mem.Allocate(MapOf(map[]));
    ExtendsItself(h0);
    ExtendsNew(h0, h0, mem.cells, id);
    EmptyMerged(mem.cells, id);
    out := Context("", Ref(id), false);
    MergeNone(all);
    for i := 0 to |layers|
      invariant mem.Valid() && id < mem.next && id !in h0
      invariant Extends(h0, mem.cells)
      invariant out.attributes == Ref(id)
      invariant out.targetingKey == Merge(all[..i]).targetingKey && out.hadCyclicInput == Merge(all[..i]).cyclic
      invariant Merged(mem.cells, id, Merge(all[..i]).entries)
    {
      ghost var before, low := mem.cells, mem.next;
      var seen := new Seen();
      var copied, cyclic := CopyMap(mem, seen, layers[i].attributes, h0);
      CopiedLayer(h0, layers[i], copied, cyclic, mem.cells, low);
      MergeNext(all, i);
      MergedKept(before, mem.cells, id, Merge(all[..i]).entries);
      MergedAt(before, id, Merge(all[..i]).entries);
      ExtendsOver(h0, before, mem.cells, id, MapOf(map[]));
      if copied.Ref? {
        MergedOver(mem.cells, id, Merge(all[..i]).entries, copied.id, all[i].entries);
        var c := MapOf(mem.cells[id].entries + mem.cells[copied.id].entries);
        ExtendsOver(h0, before, mem.cells, id, c);
        mem.Store(id, c);
      } else {
        assert Merge(all[..i]).entries + map[] == Merge(all[..i]).entries;
      }
      if layers[i].targetingKey != "" { out := out.(targetingKey := layers[i].targetingKey); }
      out := out.(hadCyclicInput := out.hadCyclicInput || layers[i].hadCyclicInput || cyclic);
    }
    assert all[..|layers|] == all;
  }

  lemma ExtendsItself(h: Heap)
    ensures Extends(h, h)
  {
  }

  lemma MergeNone(all: seq<Layer>)
    ensures Merge(all[..0]) == NO_LAYER
  {
  }

  lemma MergeNext(all: seq<Layer>, i: nat)
    requires i < |all|
    ensures Merge(all[..i + 1]) == Over(Merge(all[..i]), all[i])
  {
    assert all[..i + 1][..i] == all[..i];
  }

  lemma MergedAt(h: Heap, id: Id, entries: map<string, Tree>)
    requires Merged(h, id, entries)
    ensures id in h && h[id].MapOf?
  {
  }
}
