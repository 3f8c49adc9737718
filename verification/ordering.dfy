/** The two depth-first orders of the import/export tool: entity types, and the rows of an export. */
module Ordering {
  import opened Graphs
  import opened Records

  // ---- Types (registry.go, dependencyOrder) ----

  /** Names as vertices; references to oneself and out of the set are dropped. */
  ghost function TypeGraph(names: seq<TypeName>, refs: map<TypeName, seq<Reference>>): map<TypeName, set<TypeName>> {
    map t | t in names ::
      if t in refs then (set r | r in refs[t] && r.target != t && r.target in names :: r.target) else {}
  }

  class TypeSorter {
    const names: seq<TypeName>
    const refs: map<TypeName, seq<Reference>>
    var visited: set<TypeName>
    var order: seq<TypeName>

    constructor (names: seq<TypeName>, refs: map<TypeName, seq<Reference>>)
      ensures this.names == names && this.refs == refs && visited == {} && order == []
    {
      this.names := names;
      this.refs := refs;
      visited := {};
      order := [];
    }

    ghost function Graph(): map<TypeName, set<TypeName>> { TypeGraph(names, refs) }

    method Visit(t: TypeName)
      requires t in names
      requires Walk(Graph(), visited, order) && StackLeadsTo(Graph(), visited, order, t)
      modifies this`visited, this`order
      ensures Walk(Graph(), visited, order) && t in visited
      ensures Visited(Graph(), old(visited), old(order), t, visited, order)
      decreases Graph().Keys - visited
    {
      if t in visited {
        return;
      }
      ghost var g, seen0, order0 := Graph(), visited, order;
      visited := visited + {t};
      ReachesItself(g, t);
      if t in refs {
        for i := 0 to |refs[t]|
          invariant Walk(g, visited, order) && Visited(g, seen0 + {t}, order0, t, visited, order)
          invariant forall j :: 0 <= j < i && Edge(g, t, refs[t][j].target) ==> refs[t][j].target in visited
        {
          var target := refs[t][i].target;
          if target == t || target !in names {
            continue;
          }
          assert refs[t][i] in refs[t] && Edge(g, t, target);
          StackLeadsToTarget(g, seen0, order0, t, visited, order, target);
          ghost var seen1, order1 := visited, order;
          Visit(target);
          ThenVisited(g, seen0 + {t}, order0, t, seen1, order1, target, visited, order);
        }
      }
      FinishVertex(g, seen0, order0, t, visited, order);
      order := order + [t];
    }

    /** Each distinct name once; targets first, except along a cycle; and among independent peers
        the caller's order, as each name stands among those its predecessors in names already reach. */
    method DependencyOrder()
      requires visited == {} && order == []
      modifies this`visited, this`order
      ensures Distinct(order) && forall t :: t in order <==> t in names
      ensures TargetsFirstOrCycle(Graph(), order)
      ensures TargetsFirst(Graph(), order) <==> Acyclic(Graph())
      ensures forall i :: 0 <= i <= |names| ==> SomePrefixReached(Graph(), names[..i], order)
    {
      hide Walk, SeedsWalked, Visited, StackLeadsTo, TypeGraph, Acyclic, TargetsFirst, TargetsFirstOrCycle,
          SomePrefixReached;
      ghost var g := Graph();
      TypeGraphNames(names, refs);
      SeedsStart(g, names);
      for i := 0 to |names|
        invariant SeedsWalked(g, names, i, visited, order)
      {
        ghost var seen0, order0 := visited, order;
        SeedNext(g, names, i, visited, order);
        Visit(names[i]);
        SeedsStep(g, names, i, seen0, order0, visited, order);
      }
      SeedsDone(g, names, visited, order);
    }
  }

  lemma {:induction false} TypeGraphNames(names: seq<TypeName>, refs: map<TypeName, seq<Reference>>)
    ensures forall t :: t in TypeGraph(names, refs) <==> t in names
  {
  }

  lemma {:induction false} StackLeadsToTarget<K(!new)>(g: map<K, set<K>>, seen0: set<K>, order0: seq<K>, k: K,
          seen: set<K>, order: seq<K>, w: K)
    requires StackLeadsTo(g, seen0, order0, k) && Visited(g, seen0 + {k}, order0, k, seen, order)
    requires Edge(g, k, w)
    ensures StackLeadsTo(g, seen, order, w)
    ensures w in g
  {
    ReachesItself(g, k);
    forall s | s in seen && s !in order
      ensures Reaches(g, s, w)
    {
      assert s in seen0 + {k} && s !in order0;
      ReachesFurther(g, s, k, w);
    }
  }

  // ---- Rows (exporter.go, orderForExport) ----

  /** One scheduled row. */
  datatype Item = Item(typ: TypeName, node: Node)
  {
    function Key(): Key { Records.Key(typ, IdOf(node)) }
  }

  ghost function KeysOf(items: seq<Item>): (keys: seq<Key>)
    ensures |keys| == |items|
  {
    seq(|items|, i requires 0 <= i < |items| => items[i].Key())
  }

  lemma {:induction false} KeysOfAppend(items: seq<Item>, item: Item)
    ensures KeysOf(items + [item]) == KeysOf(items) + [item.Key()]
  {
  }

  function RefsOf(descs: map<TypeName, Descriptor>): map<TypeName, seq<Reference>> {
    map t | t in descs :: descs[t].references
  }

  function ItemsOf(t: TypeName, rows: seq<Node>): seq<Item> {
    seq(|rows|, i requires 0 <= i < |rows| => Item(t, rows[i]))
  }

  /** Each type's rows, one type after the other. */
  ghost function Concatenated(types: seq<TypeName>, rows: map<TypeName, seq<Node>>): seq<Item>
    requires forall t :: t in types ==> t in rows
  {
    if types == [] then []
    else
      var last := types[|types| - 1];
      Concatenated(types[..|types| - 1], rows) + ItemsOf(last, rows[last])
  }

  /** The type graph has no cycle and no type refers to itself. */
  ghost predicate Layered(names: seq<TypeName>, descs: map<TypeName, Descriptor>) {
    && Acyclic(TypeGraph(names, RefsOf(descs)))
    && (forall t, r :: t in descs && r in descs[t].references ==> r.target != t)
  }

  /** sorted holds each type's rows in some order. */
  ghost predicate SortsRows(sorted: map<TypeName, seq<Node>>, listing: Listing) {
    && sorted.Keys == listing.nodes.Keys
    && (forall t, node :: t in sorted ==> (node in sorted[t] <==> node in listing.nodes[t]))
    && (forall t :: t in sorted ==> DistinctIds(sorted[t]))
  }

  lemma {:induction false} EnterVertex<K(!new)>(g: map<K, set<K>>, seen: set<K>, order: seq<K>, k: K)
    requires Walk(g, seen, order) && k !in seen && k in g
    ensures Walk(g, seen + {k}, order) && Visited(g, seen + {k}, order, k, seen + {k}, order) && k !in order
  {
    ReachesItself(g, k);
  }

  lemma {:induction false} VisitedAlready<K(!new)>(g: map<K, set<K>>, seen: set<K>, order: seq<K>, k: K)
    ensures Visited(g, seen, order, k, seen, order)
  {
  }

  /** w is one of the ids the reference holds. */
  ghost predicate Names(node: Node, ref: Reference, w: Key) {
    w.typ == ref.target && w.id in ReferencedIds(At(node, ref.field))
  }

  ghost predicate NamedBy(node: Node, refs: seq<Reference>, w: Key) {
    exists ref :: ref in refs && Names(node, ref, w)
  }

  lemma {:induction false} ReferenceIsEdge(listing: Listing, index: NodeIndex, typ: TypeName, node: Node, i: nat)
    requires listing.Valid() && Indexes(index, listing) && listing.HasRow(Key(typ, IdOf(node)), node)
    requires i < |listing.descs[typ].references| && listing.descs[typ].references[i].target in index
    ensures forall w ::
      Names(node, listing.descs[typ].references[i], w) && w.id in index[listing.descs[typ].references[i].target] ==>
        Edge(RowGraph(listing, index), Key(typ, IdOf(node)), w)
  {
    var ref := listing.descs[typ].references[i];
    assert ref in listing.descs[typ].references;
    forall w | Names(node, ref, w) && w.id in index[ref.target]
      ensures Edge(RowGraph(listing, index), Key(typ, IdOf(node)), w)
    {
      assert w in TargetKeys(listing.descs[typ], node);
      IndexedRow(listing, index, w);
    }
  }

  ghost predicate NamesMet(index: NodeIndex, node: Node, ref: Reference, s: set<Key>)
    requires ref.target in index
  {
    forall w :: Names(node, ref, w) && w.id in index[ref.target] ==> w in s
  }

  lemma {:induction false} NamedInMore(listing: Listing, index: NodeIndex, typ: TypeName, node: Node, i: nat,
          before: set<Key>, after: set<Key>)
    requires listing.Valid() && Indexes(index, listing) && listing.HasRow(Key(typ, IdOf(node)), node)
    requires i < |listing.descs[typ].references|
    requires NamedIn(RowGraph(listing, index), Key(typ, IdOf(node)), node, listing.descs[typ].references[..i],
        before) && before <= after
    requires listing.descs[typ].references[i].target in index ==>
        NamesMet(index, node, listing.descs[typ].references[i], after)
    ensures NamedIn(RowGraph(listing, index), Key(typ, IdOf(node)), node, listing.descs[typ].references[..i + 1], after)
  {
    hide RowGraph, IdsIn, IndexesRows, Edge;
    var refs := listing.descs[typ].references;
    EdgesAreTargets(listing, index, typ, node);
    assert refs[..i + 1] == refs[..i] + [refs[i]];
  }

  lemma {:induction false} IndexedRow(listing: Listing, index: NodeIndex, k: Key)
    requires Indexes(index, listing) && k.typ in index && k.id in index[k.typ]
    ensures listing.HasRow(k, Lookup(index, k)) && k in listing.Keys()
  {
  }

  lemma {:induction false} EdgesAreTargets(listing: Listing, index: NodeIndex, typ: TypeName, node: Node)
    requires listing.Valid() && Indexes(index, listing) && listing.HasRow(Key(typ, IdOf(node)), node)
    ensures Key(typ, IdOf(node)) in RowGraph(listing, index)
    ensures forall w :: Edge(RowGraph(listing, index), Key(typ, IdOf(node)), w) ==>
        w.typ in index && w.id in index[w.typ]
    ensures forall w :: Edge(RowGraph(listing, index), Key(typ, IdOf(node)), w) ==>
        NamedBy(node, listing.descs[typ].references, w)
    ensures forall s ::
      NamedIn(RowGraph(listing, index), Key(typ, IdOf(node)), node, listing.descs[typ].references, s) ==>
        TargetsIn(RowGraph(listing, index), Key(typ, IdOf(node)), s)
  {
    forall w | Edge(RowGraph(listing, index), Key(typ, IdOf(node)), w)
      ensures w.typ in index && w.id in index[w.typ]
      ensures NamedBy(node, listing.descs[typ].references, w)
    {
      var r, id :| r in listing.descs[typ].references && id in ReferencedIds(At(node, r.field))
          && w == Key(r.target, id);
      assert Names(node, r, w);
    }
  }

  ghost predicate TargetsIn(g: map<Key, set<Key>>, k: Key, s: set<Key>) {
    forall w :: Edge(g, k, w) ==> w in s
  }

  ghost predicate NamedIn(g: map<Key, set<Key>>, k: Key, node: Node, refs: seq<Reference>, s: set<Key>) {
    forall w, ref :: ref in refs && Edge(g, k, w) && Names(node, ref, w) ==> w in s
  }

  /** The walk's state: visited holds the emitted rows, onStack the ones being walked. */
  ghost predicate RowWalk(listing: Listing, g: map<Key, set<Key>>, visited: set<Key>, onStack: set<Key>,
          items: seq<Item>) {
    && visited !! onStack
    && (forall k :: k in visited <==> k in KeysOf(items))
    && (forall item :: item in items ==> listing.HasRow(item.Key(), item.node))
    && Walk(g, visited + onStack, KeysOf(items))
  }

  lemma {:induction false} EnterRow(listing: Listing, g: map<Key, set<Key>>, visited: set<Key>, onStack: set<Key>,
          items: seq<Item>, key: Key)
    requires RowWalk(listing, g, visited, onStack, items) && key !in visited + onStack && key in g
    ensures RowWalk(listing, g, visited, onStack + {key}, items)
    ensures visited + (onStack + {key}) == visited + onStack + {key} && visited + onStack < g.Keys
    ensures Visited(g, visited + onStack + {key}, KeysOf(items), key, visited + (onStack + {key}), KeysOf(items))
  {
    EnterVertex(g, visited + onStack, KeysOf(items), key);
    assert visited + (onStack + {key}) == visited + onStack + {key};
  }

  lemma {:induction false} SeenUnfinished(listing: Listing, g: map<Key, set<Key>>, visited: set<Key>, onStack: set<Key>,
          items: seq<Item>, key: Key)
    requires RowWalk(listing, g, visited, onStack, items) && key !in visited + onStack
    ensures key !in KeysOf(items)
  {
  }

  lemma {:induction false} FinishRow(listing: Listing, g: map<Key, set<Key>>, seen0: set<Key>, order0: seq<Key>,
          item: Item, visited: set<Key>, onStack: set<Key>, items: seq<Item>)
    requires RowWalk(listing, g, visited, onStack, items) && item.Key() in onStack && item.Key() in g
    requires StackLeadsTo(g, seen0, order0, item.Key()) && item.Key() !in seen0 && item.Key() !in order0
    requires Visited(g, seen0 + {item.Key()}, order0, item.Key(), visited + onStack, KeysOf(items))
    requires TargetsIn(g, item.Key(), visited + onStack)
    requires listing.HasRow(item.Key(), item.node)
    ensures RowWalk(listing, g, visited + {item.Key()}, onStack - {item.Key()}, items + [item])
    ensures Visited(g, seen0, order0, item.Key(), (visited + {item.Key()}) + (onStack - {item.Key()}),
        KeysOf(items + [item]))
  {
    var key := item.Key();
    FinishVertex(g, seen0, order0, key, visited + onStack, KeysOf(items));
    KeysOfAppend(items, item);
    assert visited + onStack == (visited + {key}) + (onStack - {key});
  }

  class RowSorter {
    const listing: Listing
    const nodeById: NodeIndex
    var visited: set<Key>
    var onStack: set<Key>
    var items: seq<Item>

    constructor (listing: Listing, nodeById: NodeIndex)
      ensures this.listing == listing && this.nodeById == nodeById
      ensures visited == {} && onStack == {} && items == []
    {
      this.listing, this.nodeById := listing, nodeById;
      visited, onStack, items := {}, {}, [];
    }

    ghost predicate Valid()
      reads this
    {
      && listing.Valid() && Indexes(nodeById, listing)
      && RowWalk(listing, Graph(), visited, onStack, items)
    }

    ghost function Graph(): map<Key, set<Key>> { RowGraph(listing, nodeById) }

    /** One row of the recursion: its targets first, then the row itself. */
    method Visit(typ: TypeName, node: Node)
      requires Valid() && listing.HasRow(Key(typ, IdOf(node)), node)
      requires StackLeadsTo(Graph(), visited + onStack, KeysOf(items), Key(typ, IdOf(node)))
      modifies this`visited, this`onStack, this`items
      ensures Valid() && Key(typ, IdOf(node)) in visited + onStack && onStack == old(onStack)
      ensures Visited(Graph(), old(visited + onStack), old(KeysOf(items)), Key(typ, IdOf(node)), visited + onStack,
          KeysOf(items))
      // A row already met adds nothing; a row whose targets are all out adds itself alone.
      ensures old(Key(typ, IdOf(node)) in visited + onStack) ==> items == old(items)
      ensures
        old(Key(typ, IdOf(node)) !in visited + onStack) && TargetsIn(Graph(), Key(typ, IdOf(node)), old(visited)) ==>
          items == old(items) + [Item(typ, node)]
      ensures old(visited) <= visited
      decreases Graph().Keys - (visited + onStack), 0
    {
      hide RowWalk, StackLeadsTo, RowGraph, KeysOf, ReferencedIds, Edge, Names, Indexes;
      var key := Key(typ, IdOf(node));
      if key in visited || key in onStack {
        VisitedAlready(Graph(), visited + onStack, KeysOf(items), key);
        return;
      }
      ghost var g, seen0, order0, items0, visited0 := Graph(), visited + onStack, KeysOf(items), items, visited;
      EdgesAreTargets(listing, nodeById, typ, node);
      EnterRow(listing, g, visited, onStack, items, key);
      onStack := onStack + {key};
      ghost var stack := onStack;
      var refs := listing.descs[typ].references;
      for i := 0 to |refs|
        invariant Valid() && onStack == stack
        invariant Visited(g, seen0 + {key}, order0, key, visited + onStack, KeysOf(items))
        invariant NamedIn(g, key, node, refs[..i], visited + onStack)
        invariant visited0 <= visited && (TargetsIn(g, key, visited0) ==> items == items0)
      {
        ghost var seen1 := visited + onStack;
        if refs[i].target in nodeById {
          ReferenceIsEdge(listing, nodeById, typ, node, i);
          VisitTargets(node, refs[i], key, seen0, order0);
        }
        NamedInMore(listing, nodeById, typ, node, i, seen1, visited + onStack);
      }
      assert refs[..|refs|] == refs;
      SeenUnfinished(listing, g, visited0, onStack - {key}, items0, key);
      FinishRow(listing, g, seen0, order0, Item(typ, node), visited, onStack, items);
      onStack := onStack - {key};
      visited := visited + {key};
      items := items + [Item(typ, node)];
    }

    /** The rows one reference of key names. */
    method VisitTargets(node: Node, ref: Reference, ghost key: Key, ghost seen0: set<Key>, ghost order0: seq<Key>)
      requires Valid() && ref.target in nodeById
      requires forall w :: Names(node, ref, w) && w.id in nodeById[ref.target] ==> Edge(Graph(), key, w)
      requires key !in seen0 && StackLeadsTo(Graph(), seen0, order0, key)
      requires Visited(Graph(), seen0 + {key}, order0, key, visited + onStack, KeysOf(items))
      modifies this`visited, this`onStack, this`items
      ensures Valid() && onStack == old(onStack) && old(visited) <= visited
      ensures Visited(Graph(), seen0 + {key}, order0, key, visited + onStack, KeysOf(items))
      ensures NamesMet(nodeById, node, ref, visited + onStack) && old(visited + onStack) <= visited + onStack
      ensures TargetsIn(Graph(), key, old(visited)) ==> items == old(items)
      decreases Graph().Keys - (visited + onStack), 1
    {
      hide RowWalk, StackLeadsTo, RowGraph, KeysOf, ReferencedIds, Edge, Indexes;
      var ids := CollectIds(At(node, ref.field));
      ghost var g, visited0, items0, stack, seen := Graph(), visited, items, onStack, visited + onStack;
      for h := 0 to |ids|
        invariant Valid() && onStack == stack && visited0 <= visited && seen <= visited + onStack
        invariant Visited(g, seen0 + {key}, order0, key, visited + onStack, KeysOf(items))
        invariant forall l :: 0 <= l < h && ids[l] in nodeById[ref.target] ==>
            Key(ref.target, ids[l]) in visited + onStack
        invariant TargetsIn(g, key, visited0) ==> items == items0
      {
        if ids[h] in nodeById[ref.target] {
          ghost var w := Key(ref.target, ids[h]);
          ghost var seen1, order1 := visited + onStack, KeysOf(items);
          assert Names(node, ref, w);
          StackLeadsToTarget(g, seen0, order0, key, seen1, order1, w);
          IndexedRow(listing, nodeById, w);
          Visit(ref.target, nodeById[ref.target][ids[h]]);
          ThenVisited(g, seen0 + {key}, order0, key, seen1, order1, w, visited + onStack, KeysOf(items));
        }
      }
    }

    /** orderForExport over rows already sorted within each type; types reports the seed order. */
    method OrderForExport(names: seq<TypeName>, sorted: map<TypeName, seq<Node>>) returns (types: seq<TypeName>)
      requires Valid() && visited == {} && onStack == {} && items == []
      requires SortsRows(sorted, listing) && forall t :: t in names <==> t in sorted
      modifies this`visited, this`onStack, this`items
      // Every row once, cycles or not.
      ensures Distinct(KeysOf(items)) && forall k :: k in KeysOf(items) <==> k in listing.Keys()
      ensures forall item :: item in items ==> listing.HasRow(item.Key(), item.node)
      // A row stands after everything it refers to, except along a cycle; so always, iff acyclic.
      ensures TargetsFirstOrCycle(Graph(), KeysOf(items))
      ensures TargetsFirst(Graph(), KeysOf(items)) <==> Acyclic(Graph())
      // Types that refer only to other types, acyclically, come out block by block.
      ensures (forall t :: t in types ==> t in sorted) && Distinct(types)
      ensures Layered(names, listing.descs) ==> items == Concatenated(types, sorted)
    {
      hide RowWalk, RowGraph, KeysOf, Layered, Concatenated, TypesOut, TargetsFirst, TargetsFirstOrCycle, Acyclic;
      ghost var g := Graph();
      var sorter := new TypeSorter(names, RefsOf(listing.descs));
      sorter.DependencyOrder();
      types := sorter.order;
      NothingOut(listing, types, sorted);
      LayeredOrder(names, listing.descs, types);
      for i := 0 to |types|
        invariant Valid() && onStack == {}
        invariant TypesOut(listing, types[..i], visited)
        invariant Layered(names, listing.descs) ==> items == Concatenated(types[..i], sorted)
      {
        WalkType(names, types, i, sorted);
      }
      assert types[..|types|] == types;
      AllRowsOut(listing, nodeById, types, visited, items);
      TargetsFirstIffAcyclic(g, KeysOf(items));
    }

    /** The rows of one type, in their sorted order. */
    method WalkType(ghost names: seq<TypeName>, types: seq<TypeName>, i: nat, sorted: map<TypeName, seq<Node>>)
      requires Valid() && onStack == {} && SortsRows(sorted, listing)
      requires i < |types| && Distinct(types) && forall t :: t in types <==> t in sorted
      requires forall t :: t in names <==> t in sorted
      requires Layered(names, listing.descs) ==> TargetsFirst(TypeGraph(names, RefsOf(listing.descs)), types)
      requires TypesOut(listing, types[..i], visited)
      requires Layered(names, listing.descs) ==> items == Concatenated(types[..i], sorted)
      modifies this`visited, this`onStack, this`items
      ensures Valid() && onStack == {} && old(visited) <= visited
      ensures TypesOut(listing, types[..i + 1], visited)
      ensures Layered(names, listing.descs) ==> items == Concatenated(types[..i + 1], sorted)
    {
      hide RowWalk, RowGraph, KeysOf, Layered, Concatenated, Edge, TypesOut, TargetsFirst, SortsRows, Distinct,
          TypeGraph, Indexes;
      var t := types[i];
      var rows := sorted[t];
      ghost var items0, visited0 := items, visited;
      for j := 0 to |rows|
        invariant Valid() && onStack == {} && visited0 <= visited
        invariant forall h :: 0 <= h < j ==> Key(t, IdOf(rows[h])) in visited
        invariant Layered(names, listing.descs) ==> items == items0 + ItemsOf(t, rows[..j])
      {
        SortedRowListed(listing, sorted, t, j);
        if Layered(names, listing.descs) {
          LayeredTargetsOut(listing, nodeById, names, types, i, sorted, rows[j], visited0, visited);
          LayeredRowIsNew(listing, Graph(), types, i, sorted, j, visited, items);
        }
        EmptyStackLeads(listing, Graph(), visited, items, Key(t, IdOf(rows[j])));
        Visit(t, rows[j]);
        assert ItemsOf(t, rows[..j + 1]) == ItemsOf(t, rows[..j]) + [Item(t, rows[j])];
      }
      assert rows[..|rows|] == rows;
      TypeOut(listing, types, i, sorted, visited0, visited);
    }
  }

  lemma {:induction false} SortedRowListed(listing: Listing, sorted: map<TypeName, seq<Node>>, t: TypeName, j: nat)
    requires SortsRows(sorted, listing) && t in sorted && j < |sorted[t]|
    ensures listing.HasRow(Key(t, IdOf(sorted[t][j])), sorted[t][j])
  {
  }

  lemma {:induction false} EmptyStackLeads(listing: Listing, g: map<Key, set<Key>>, visited: set<Key>, items: seq<Item>,
          k: Key)
    requires RowWalk(listing, g, visited, {}, items)
    ensures StackLeadsTo(g, visited + {}, KeysOf(items), k)
  {
  }

  /** All rows of these types have been walked. */
  ghost predicate TypesOut(listing: Listing, types: seq<TypeName>, visited: set<Key>) {
    forall k: Key :: k.typ in types && k in listing.Keys() ==> k in visited
  }

  lemma {:induction false} NothingOut(listing: Listing, types: seq<TypeName>, sorted: map<TypeName, seq<Node>>)
    ensures TypesOut(listing, types[..0], {}) && Concatenated(types[..0], sorted) == []
  {
  }

  lemma {:induction false} LayeredOrder(names: seq<TypeName>, descs: map<TypeName, Descriptor>, types: seq<TypeName>)
    requires TargetsFirst(TypeGraph(names, RefsOf(descs)), types) <==> Acyclic(TypeGraph(names, RefsOf(descs)))
    ensures Layered(names, descs) ==> TargetsFirst(TypeGraph(names, RefsOf(descs)), types)
  {
  }

  lemma {:induction false} TypeOut(listing: Listing, types: seq<TypeName>, i: nat, sorted: map<TypeName, seq<Node>>,
          visited0: set<Key>, visited: set<Key>)
    requires i < |types| && types[i] in sorted && (forall t :: t in types ==> t in sorted) && SortsRows(sorted, listing)
    requires TypesOut(listing, types[..i], visited0) && visited0 <= visited
    requires forall h :: 0 <= h < |sorted[types[i]]| ==> Key(types[i], IdOf(sorted[types[i]][h])) in visited
    ensures TypesOut(listing, types[..i + 1], visited)
    ensures Concatenated(types[..i + 1], sorted) ==
        Concatenated(types[..i], sorted) + ItemsOf(types[i], sorted[types[i]])
  {
    var t, rows := types[i], sorted[types[i]];
    forall k: Key | k.typ in types[..i + 1] && k in listing.Keys()
      ensures k in visited
    {
      if k.typ == t {
        var node :| node in listing.nodes[t] && IdOf(node) == k.id;
        var h :| 0 <= h < |rows| && rows[h] == node;
      } else {
        assert k.typ in types[..i];
      }
    }
    assert types[..i + 1][..i] == types[..i];
  }

  lemma {:induction false} AllRowsOut(listing: Listing, index: NodeIndex, types: seq<TypeName>, visited: set<Key>,
          items: seq<Item>)
    requires listing.Valid() && Indexes(index, listing)
    requires RowWalk(listing, RowGraph(listing, index), visited, {}, items)
    requires TypesOut(listing, types, visited) && forall t :: t in listing.nodes ==> t in types
    ensures Distinct(KeysOf(items)) && forall k :: k in KeysOf(items) <==> k in listing.Keys()
    ensures TargetsFirstOrCycle(RowGraph(listing, index), KeysOf(items))
        && RowGraph(listing, index).Keys == listing.Keys()
    ensures forall item :: item in items ==> listing.HasRow(item.Key(), item.node)
  {
  }

  lemma {:induction false} NamedTarget(node: Node, ref: Reference, w: Key)
    requires Names(node, ref, w)
    ensures w.typ == ref.target
  {
  }

  lemma {:induction false} LayeredTypeEdge(names: seq<TypeName>, descs: map<TypeName, Descriptor>, t: TypeName,
          ref: Reference)
    requires Layered(names, descs) && t in descs && ref in descs[t].references && t in names && ref.target in names
    ensures Edge(TypeGraph(names, RefsOf(descs)), t, ref.target)
  {
  }

  /** With layered types, the targets of a row belong to types already walked. */
  lemma {:induction false} LayeredTargetsOut(listing: Listing, index: NodeIndex, names: seq<TypeName>,
          types: seq<TypeName>, i: nat, sorted: map<TypeName, seq<Node>>, node: Node, visited0: set<Key>,
          visited: set<Key>)
    requires listing.Valid() && Indexes(index, listing) && SortsRows(sorted, listing)
    requires Layered(names, listing.descs) && TargetsFirst(TypeGraph(names, RefsOf(listing.descs)), types)
    requires i < |types| && types[i] in sorted && node in listing.nodes[types[i]]
    requires forall t :: t in names <==> t in sorted
    requires TypesOut(listing, types[..i], visited0) && visited0 <= visited
    ensures TargetsIn(RowGraph(listing, index), Key(types[i], IdOf(node)), visited)
  {
    hide RowGraph, IdsIn, IndexesRows, Edge, Names, Layered, TypeGraph;
    var t := types[i];
    var g, key, refs := RowGraph(listing, index), Key(t, IdOf(node)), listing.descs[t].references;
    EdgesAreTargets(listing, index, t, node);
    forall w, ref | ref in refs && Edge(g, key, w) && Names(node, ref, w)
      ensures w in visited
    {
      NamedTarget(node, ref, w);
      LayeredTypeEdge(names, listing.descs, t, ref);
      IndexedRow(listing, index, w);
    }
    assert NamedIn(g, key, node, refs, visited);
  }

  lemma {:induction false} ConcatenatedTypes(types: seq<TypeName>, sorted: map<TypeName, seq<Node>>)
    requires forall t :: t in types ==> t in sorted
    ensures forall item :: item in Concatenated(types, sorted) ==> item.typ in types
  {
    if types != [] {
      ConcatenatedTypes(types[..|types| - 1], sorted);
    }
  }

  /** ... and the row itself has not been met. */
  lemma {:induction false} LayeredRowIsNew(listing: Listing, g: map<Key, set<Key>>, types: seq<TypeName>, i: nat,
          sorted: map<TypeName, seq<Node>>, j: nat, visited: set<Key>, items: seq<Item>)
    requires i < |types| && Distinct(types) && (forall t :: t in types <==> t in sorted) && SortsRows(sorted, listing)
    requires j < |sorted[types[i]]| && RowWalk(listing, g, visited, {}, items)
    requires items == Concatenated(types[..i], sorted) + ItemsOf(types[i], sorted[types[i]][..j])
    ensures Key(types[i], IdOf(sorted[types[i]][j])) !in visited
  {
    var t, rows := types[i], sorted[types[i]];
    var key := Key(t, IdOf(rows[j]));
    ConcatenatedTypes(types[..i], sorted);
    assert t !in types[..i];
    forall item | item in items
      ensures item.Key() != key
    {
    }
  }
}
