/** Exporting to a directory, one file per type, and reading it back in the registry's order
    (exporter.go, ExportToDir; parser.go, expandDirectory; registry.go): which orders of the files
    keep every row behind the rows it refers to. */
module Files {
  import opened Graphs
  import opened Records
  import opened Ordering
  import opened Exporting
  import opened Importing
  import opened RoundTrip

  // ---- The order of the lines ----

  /** The positions of a type's rows, in the order of the export. */
  function Picks(items: seq<Item>, t: TypeName): seq<nat> {
    if items == [] then []
    else
      var n := |items| - 1;
      Picks(items[..n], t) + if items[n].typ == t then [n] else []
  }

  /** The positions in the order in which the files are read. */
  function FileOrder(items: seq<Item>, order: seq<TypeName>): seq<nat> {
    if order == [] then []
    else FileOrder(items, order[..|order| - 1]) + Picks(items, order[|order| - 1])
  }

  function Picked<T>(s: seq<T>, positions: seq<nat>): (picked: seq<T>)
    requires forall i :: 0 <= i < |positions| ==> positions[i] < |s|
    ensures |picked| == |positions| && forall i :: 0 <= i < |picked| ==> picked[i] == s[positions[i]]
  {
    seq(|positions|, i requires 0 <= i < |positions| => s[positions[i]])
  }

  lemma {:induction false} PicksAre(items: seq<Item>, t: TypeName)
    ensures forall p :: p in Picks(items, t) <==> 0 <= p < |items| && items[p].typ == t
    ensures forall i, j :: 0 <= i < j < |Picks(items, t)| ==> Picks(items, t)[i] < Picks(items, t)[j]
  {
    if items != [] {
      var n := |items| - 1;
      PicksAre(items[..n], t);
      var before := Picks(items[..n], t);
      forall i | 0 <= i < |before|
        ensures before[i] < n
      {
        assert before[i] in before;
      }
    }
  }

  /** t stands before u. */
  ghost predicate Ahead(order: seq<TypeName>, t: TypeName, u: TypeName) {
    exists i, j :: 0 <= i < j < |order| && order[i] == t && order[j] == u
  }

  /** Of two rows, p is read first: from an earlier file, or earlier in the same. */
  ghost predicate ReadFirst(items: seq<Item>, order: seq<TypeName>, p: nat, q: nat)
    requires p < |items| && q < |items|
  {
    if items[p].typ == items[q].typ then p < q else Ahead(order, items[p].typ, items[q].typ)
  }

  lemma {:induction false} FileOrderAre(items: seq<Item>, order: seq<TypeName>)
    ensures forall p :: p in FileOrder(items, order) <==> 0 <= p < |items| && items[p].typ in order
  {
    if order != [] {
      var n := |order| - 1;
      FileOrderAre(items, order[..n]);
      PicksAre(items, order[n]);
      assert order == order[..n] + [order[n]];
    }
  }

  /** Rows come out in that order, each once. */
  lemma {:induction false} FileOrderKeeps(items: seq<Item>, order: seq<TypeName>, i: nat, j: nat)
    requires Distinct(order) && i < j < |FileOrder(items, order)|
    ensures FileOrder(items, order)[i] < |items| && FileOrder(items, order)[j] < |items|
    ensures ReadFirst(items, order, FileOrder(items, order)[i], FileOrder(items, order)[j])
  {
    var n := |order| - 1;
    var before, last := FileOrder(items, order[..n]), Picks(items, order[n]);
    PicksAre(items, order[n]);
    FileOrderAre(items, order[..n]);
    if j < |before| {
      FileOrderKeeps(items, order[..n], i, j);
      AheadMore(order, items[before[i]].typ, items[before[j]].typ);
    } else {
      assert last[j - |before|] in last;
      if i < |before| {
        assert before[i] in before;
        assert items[before[i]].typ in order[..n];
        var k :| 0 <= k < n && order[..n][k] == items[before[i]].typ;
        assert order[k] == items[before[i]].typ && order[n] == items[last[j - |before|]].typ;
      } else {
        assert last[i - |before|] in last;
      }
    }
  }

  lemma {:induction false} AheadMore(order: seq<TypeName>, t: TypeName, u: TypeName)
    requires order != []
    ensures Ahead(order[..|order| - 1], t, u) ==> Ahead(order, t, u)
  {
    if Ahead(order[..|order| - 1], t, u) {
      var i, j :| 0 <= i < j < |order| - 1 && order[..|order| - 1][i] == t && order[..|order| - 1][j] == u;
      assert order[i] == t && order[j] == u;
    }
  }

  lemma {:induction false} OneWay(items: seq<Item>, order: seq<TypeName>, p: nat, q: nat)
    requires Distinct(order) && p < |items| && q < |items| && ReadFirst(items, order, p, q)
    ensures !ReadFirst(items, order, q, p)
  {
  }

  /** So a row stands before another one exactly if it is read first. */
  lemma {:induction false} StandsBefore(items: seq<Item>, order: seq<TypeName>, j: nat, q: nat)
    requires Distinct(order) && j < |FileOrder(items, order)| && q < |items| && items[q].typ in order
    ensures FileOrder(items, order)[j] < |items|
    ensures q in FileOrder(items, order)[..j] <==> ReadFirst(items, order, q, FileOrder(items, order)[j])
  {
    hide FileOrder, ReadFirst;
    var positions := FileOrder(items, order);
    FileOrderAre(items, order);
    assert positions[j] in positions && q in positions;
    if q in positions[..j] {
      var i :| 0 <= i < j && positions[..j][i] == q;
      FileOrderKeeps(items, order, i, j);
    } else if ReadFirst(items, order, q, positions[j]) {
      OneWay(items, order, q, positions[j]);
      var i :| 0 <= i < |positions| && positions[i] == q;
      AmongFirst(positions, i, j);
      if i > j {
        FileOrderKeeps(items, order, j, i);
      }
    }
  }

  lemma {:induction false} AmongFirst<T>(s: seq<T>, i: nat, j: nat)
    requires i < |s| && j <= |s|
    ensures i < j ==> s[i] in s[..j]
  {
    if i < j {
      assert s[..j][i] == s[i];
    }
  }

  ghost function InFiles(items: seq<Item>, order: seq<TypeName>): (files: seq<Item>) {
    FileOrderAre(items, order);
    var positions := FileOrder(items, order);
    assert forall i :: 0 <= i < |positions| ==> positions[i] in positions;
    Picked(items, positions)
  }

  ghost predicate HasTypes(items: seq<Item>, order: seq<TypeName>) {
    Distinct(order) && forall item :: item in items ==> item.typ in order
  }

  /** What a row refers to is read before it. */
  ghost predicate TargetsReadFirst(g: map<Key, set<Key>>, items: seq<Item>, order: seq<TypeName>) {
    forall p: nat, q: nat :: p < |items| && q < |items| && Edge(g, items[p].Key(), items[q].Key()) ==>
      ReadFirst(items, order, q, p)
  }

  /** The files keep every target first exactly if it is read before its referrer: within a file by
      the order of the export, and otherwise by the order of the files. */
  lemma {:induction false} FilesKeepTargets(g: map<Key, set<Key>>, items: seq<Item>, order: seq<TypeName>)
    requires Distinct(KeysOf(items)) && HasTypes(items, order) && forall k :: k in g ==> k in KeysOf(items)
    ensures TargetsFirst(g, KeysOf(InFiles(items, order))) <==> TargetsReadFirst(g, items, order)
  {
    hide ReadFirst, FileOrder;
    var positions, keys := FileOrder(items, order), KeysOf(InFiles(items, order));
    FileOrderAre(items, order);
    if TargetsReadFirst(g, items, order) {
      forall j, w | 0 <= j < |keys| && Edge(g, keys[j], w)
        ensures w in keys[..j]
      {
        var q :| 0 <= q < |items| && KeysOf(items)[q] == w;
        assert items[q] in items && positions[j] in positions;
        StandsBefore(items, order, j, q);
        var i :| 0 <= i < j && positions[..j][i] == q;
        assert keys[..j][i] == w;
      }
    }
    if TargetsFirst(g, keys) {
      forall p: nat, q: nat | p < |items| && q < |items| && Edge(g, items[p].Key(), items[q].Key())
        ensures ReadFirst(items, order, q, p)
      {
        EdgeReadFirst(g, items, order, p, q);
      }
    }
  }

  lemma {:induction false} EdgeReadFirst(g: map<Key, set<Key>>, items: seq<Item>, order: seq<TypeName>, p: nat, q: nat)
    requires Distinct(KeysOf(items)) && HasTypes(items, order) && p < |items| && q < |items|
    requires TargetsFirst(g, KeysOf(InFiles(items, order))) && Edge(g, items[p].Key(), items[q].Key())
    ensures ReadFirst(items, order, q, p)
  {
    hide ReadFirst, FileOrder;
    var positions, keys := FileOrder(items, order), KeysOf(InFiles(items, order));
    FileOrderAre(items, order);
    assert items[p] in items && items[q] in items;
    var j :| 0 <= j < |positions| && positions[j] == p;
    assert keys[j] == items[p].Key();
    var i :| 0 <= i < j && keys[..j][i] == items[q].Key();
    assert positions[i] in positions && KeysOf(items)[positions[i]] == KeysOf(items)[q];
    assert positions[..j][i] == q;
    StandsBefore(items, order, j, q);
  }

  /** Two types whose rows refer to each other cannot be read back from files, in whatever order. */
  lemma {:induction false} CrossedTypesFail(g: map<Key, set<Key>>, items: seq<Item>, order: seq<TypeName>, p: nat,
          q: nat, u: nat, v: nat)
    requires Distinct(KeysOf(items)) && HasTypes(items, order) && forall k :: k in g ==> k in KeysOf(items)
    requires p < |items| && q < |items| && Edge(g, items[p].Key(), items[q].Key())
    requires u < |items| && v < |items| && Edge(g, items[u].Key(), items[v].Key())
    requires items[p].typ == items[v].typ != items[u].typ == items[q].typ
    ensures !TargetsFirst(g, KeysOf(InFiles(items, order)))
  {
    FilesKeepTargets(g, items, order);
    NotBothAhead(items, order, p, q, u, v);
  }

  lemma {:induction false} NotBothAhead(items: seq<Item>, order: seq<TypeName>, p: nat, q: nat, u: nat, v: nat)
    requires Distinct(order) && p < |items| && q < |items| && u < |items| && v < |items|
    requires items[p].typ == items[v].typ != items[u].typ == items[q].typ
    ensures !(ReadFirst(items, order, q, p) && ReadFirst(items, order, v, u))
  {
  }

  // ---- The registry's order ----

  /** The registry knows the references of every listed type. */
  ghost predicate Registers(refs: map<TypeName, seq<Reference>>, listing: Listing) {
    forall t :: t in listing.descs ==> t in refs && refs[t] == listing.descs[t].references
  }

  lemma {:induction false} TypeEdge(listing: Listing, index: NodeIndex, names: seq<TypeName>,
          refs: map<TypeName, seq<Reference>>, item: Item, w: Key)
    requires listing.Valid() && Indexes(index, listing) && listing.HasRow(item.Key(), item.node)
    requires Registers(refs, listing) && item.typ in names && w.typ in names && w.typ != item.typ
    requires Edge(RowGraph(listing, index), item.Key(), w)
    ensures Edge(TypeGraph(names, refs), item.typ, w.typ)
  {
    hide RowGraph, Indexes;
    EdgesAreTargets(listing, index, item.typ, item.node);
    var r :| r in listing.descs[item.typ].references && Names(item.node, r, w);
  }

  /** When the types come in an order with targets first, as the registry's do exactly if the type
      graph is acyclic but for self references, the files keep targets first exactly if the rows are
      acyclic. */
  lemma {:induction false} FilesKeepAcyclicRows(listing: Listing, index: NodeIndex, items: seq<Item>,
          names: seq<TypeName>, refs: map<TypeName, seq<Reference>>, order: seq<TypeName>)
    requires listing.Valid() && Indexes(index, listing) && Scheduled(listing, index, items)
    requires Registers(refs, listing) && HasTypes(items, order) && forall t :: t in order <==> t in names
    requires TargetsFirst(TypeGraph(names, refs), order)
    ensures TargetsFirst(RowGraph(listing, index), KeysOf(InFiles(items, order))) <==>
        Acyclic(RowGraph(listing, index))
  {
    hide Indexes, Acyclic, RowGraph, ReadFirst, TypeGraph, KeysOf;
    var g := RowGraph(listing, index);
    RowGraphKeys(listing, index);
    FilesKeepTargets(g, items, order);
    if Acyclic(g) {
      forall p: nat, q: nat | p < |items| && q < |items| && Edge(g, items[p].Key(), items[q].Key())
        ensures ReadFirst(items, order, q, p)
      {
        EdgeKept(listing, index, items, names, refs, order, p, q);
      }
    } else if TargetsFirst(g, KeysOf(InFiles(items, order))) {
      CycleBreaksAny(g, items, order);
    }
  }

  lemma {:induction false} RowGraphKeys(listing: Listing, index: NodeIndex)
    ensures forall k :: k in RowGraph(listing, index) <==> k in listing.Keys()
  {
  }

  lemma {:induction false} EdgeKept(listing: Listing, index: NodeIndex, items: seq<Item>, names: seq<TypeName>,
          refs: map<TypeName, seq<Reference>>, order: seq<TypeName>, p: nat, q: nat)
    requires listing.Valid() && Indexes(index, listing) && Lists(listing, items)
    requires TargetsFirst(RowGraph(listing, index), KeysOf(items))
    requires Registers(refs, listing) && HasTypes(items, order) && forall t :: t in order <==> t in names
    requires TargetsFirst(TypeGraph(names, refs), order)
    requires p < |items| && q < |items| && Edge(RowGraph(listing, index), items[p].Key(), items[q].Key())
    ensures ReadFirst(items, order, q, p)
  {
    hide Indexes, RowGraph, TypeGraph;
    assert items[p] in items && items[q] in items;
    if items[p].typ == items[q].typ {
      assert Edge(RowGraph(listing, index), KeysOf(items)[p], items[q].Key());
      var i :| 0 <= i < p && KeysOf(items)[..p][i] == items[q].Key();
      assert KeysOf(items)[i] == KeysOf(items)[q];
    } else {
      TypeEdge(listing, index, names, refs, items[p], items[q].Key());
      var j :| 0 <= j < |order| && order[j] == items[p].typ;
      var i :| 0 <= i < j && order[..j][i] == items[q].typ;
      assert order[i] == items[q].typ;
    }
  }

  lemma {:induction false} CycleBreaksAny(g: map<Key, set<Key>>, items: seq<Item>, order: seq<TypeName>)
    requires Distinct(KeysOf(items)) && HasTypes(items, order) && forall k :: k in g ==> k in KeysOf(items)
    requires TargetsFirst(g, KeysOf(InFiles(items, order)))
    ensures Acyclic(g)
  {
    FilesListAll(items, order);
    TargetsFirstIffAcyclic(g, KeysOf(InFiles(items, order)));
  }

  /** The files hold every row once. */
  lemma {:induction false} FilesListAll(items: seq<Item>, order: seq<TypeName>)
    requires Distinct(KeysOf(items)) && HasTypes(items, order)
    ensures Distinct(KeysOf(InFiles(items, order))) && |InFiles(items, order)| == |FileOrder(items, order)|
    ensures forall k :: k in KeysOf(InFiles(items, order)) <==> k in KeysOf(items)
    ensures forall item :: item in InFiles(items, order) <==> item in items
  {
    hide ReadFirst, FileOrder;
    var positions, files := FileOrder(items, order), InFiles(items, order);
    FileOrderAre(items, order);
    forall i, j | 0 <= i < j < |files|
      ensures KeysOf(files)[i] != KeysOf(files)[j]
    {
      FileOrderKeeps(items, order, i, j);
      OneWay(items, order, positions[i], positions[j]);
      assert KeysOf(items)[positions[i]] == KeysOf(files)[i] && KeysOf(items)[positions[j]] == KeysOf(files)[j];
    }
    forall item | item in items
      ensures item in files
    {
      var p :| 0 <= p < |items| && items[p] == item;
      var i :| 0 <= i < |positions| && positions[i] == p;
      assert files[i] == item;
    }
    forall i | 0 <= i < |files|
      ensures files[i] in items
    {
      assert positions[i] in positions;
    }
    forall k | k in KeysOf(items)
      ensures k in KeysOf(files)
    {
      var p :| 0 <= p < |items| && KeysOf(items)[p] == k;
      assert items[p] in files;
      var i :| 0 <= i < |files| && files[i] == items[p];
      assert KeysOf(files)[i] == k;
    }
    forall k | k in KeysOf(files)
      ensures k in KeysOf(items)
    {
      var i :| 0 <= i < |files| && KeysOf(files)[i] == k;
      assert files[i] in items;
      var p :| 0 <= p < |items| && items[p] == files[i];
      assert KeysOf(items)[p] == k;
    }
  }

  // ---- Writing and reading the files ----

  /** The lines of one type's file. */
  function FileOf(items: seq<Item>, records: seq<Node>, t: TypeName): seq<Node>
    requires |items| == |records|
  {
    PicksAre(items, t);
    var positions := Picks(items, t);
    assert forall i :: 0 <= i < |positions| ==> positions[i] in positions;
    Picked(records, positions)
  }

  lemma {:induction false} FileOfAppend(items: seq<Item>, records: seq<Node>, n: nat, t: TypeName)
    requires n < |items| == |records|
    ensures FileOf(items[..n + 1], records[..n + 1], t)
         == FileOf(items[..n], records[..n], t) + if items[n].typ == t then [records[n]] else []
  {
    assert items[..n + 1][..n] == items[..n];
    PicksAre(items[..n], t);
    var before := Picks(items[..n], t);
    forall i | 0 <= i < |before|
      ensures before[i] < n && records[..n + 1][before[i]] == records[..n][before[i]]
    {
      assert before[i] in before;
    }
  }

  /** The buckets of ExportToDir, and a file for each requested type, even an empty one. */
  method WriteFiles(items: seq<Item>, records: seq<Node>, types: set<TypeName>)
    returns (files: map<TypeName, seq<Node>>)
    requires |items| == |records| && forall item :: item in items ==> item.typ in types
    ensures files.Keys == types && forall t :: t in types ==> files[t] == FileOf(items, records, t)
  {
    hide FileOf, Picks;
    var buckets: map<TypeName, seq<Node>> := map t | t in types :: [];
    forall t
      ensures FileOf(items[..0], records[..0], t) == []
    {
      NoLines(t);
    }
    for i := 0 to |items|
      invariant buckets.Keys == types && forall t :: t in types ==> buckets[t] == FileOf(items[..i], records[..i], t)
    {
      forall t
        ensures FileOf(items[..i + 1], records[..i + 1], t)
             == FileOf(items[..i], records[..i], t) + if items[i].typ == t then [records[i]] else []
      {
        FileOfAppend(items, records, i, t);
      }
      assert items[i] in items;
      buckets := buckets[items[i].typ := buckets[items[i].typ] + [records[i]]];
    }
    assert items[..|items|] == items && records[..|records|] == records;
    files := buckets;
  }

  lemma {:induction false} NoLines(t: TypeName)
    ensures FileOf([], [], t) == []
  {
  }

  /** The lines of the files in the order in which they are read. */
  function LinesInFiles(items: seq<Item>, records: seq<Node>, order: seq<TypeName>): (lines: seq<Node>)
    requires |items| == |records|
    ensures |lines| == |FileOrder(items, order)|
  {
    FileOrderAre(items, order);
    var positions := FileOrder(items, order);
    assert forall i :: 0 <= i < |positions| ==> positions[i] in positions;
    Picked(records, positions)
  }

  lemma {:induction false} OneMoreFile(items: seq<Item>, records: seq<Node>, order: seq<TypeName>, n: nat)
    requires |items| == |records| && n < |order|
    ensures LinesInFiles(items, records, order[..n + 1])
         == LinesInFiles(items, records, order[..n]) + FileOf(items, records, order[n])
  {
    assert order[..n + 1][..n] == order[..n];
  }

  /** A type without rows has no lines. */
  lemma {:induction false} EmptyFile(items: seq<Item>, records: seq<Node>, t: TypeName)
    requires |items| == |records| && forall item :: item in items ==> item.typ != t
    ensures FileOf(items, records, t) == []
  {
    if items != [] {
      var n := |items| - 1;
      EmptyFile(items[..n], records[..n], t);
      assert items[n] in items;
    }
  }

  /** StreamFiles over the directory: the registered types that have a file, in the registry's order. */
  method ReadFiles(files: map<TypeName, seq<Node>>, order: seq<TypeName>, ghost items: seq<Item>,
          ghost records: seq<Node>) returns (lines: seq<Node>)
    requires |items| == |records| && forall item :: item in items ==> item.typ in files
    requires forall t :: t in files ==> files[t] == FileOf(items, records, t)
    ensures lines == LinesInFiles(items, records, order)
  {
    hide FileOf, FileOrder, LinesInFiles;
    lines := [];
    NothingRead(items, records);
    for i := 0 to |order|
      invariant lines == LinesInFiles(items, records, order[..i])
    {
      OneMoreFile(items, records, order, i);
      if order[i] in files {
        lines := lines + files[order[i]];
      } else {
        EmptyFile(items, records, order[i]);
      }
    }
    assert order[..|order|] == order;
  }

  lemma {:induction false} NothingRead(items: seq<Item>, records: seq<Node>)
    requires |items| == |records|
    ensures LinesInFiles(items, records, []) == []
  {
  }

  /** The files are an export of the rows in the order in which they are read. */
  lemma {:induction false} FilesAreExport(listing: Listing, items: seq<Item>, index: RefIndex, records: seq<Node>,
          order: seq<TypeName>)
    requires Lists(listing, items) && HasTypes(items, order)
    requires Exported(listing, items, index, records) && AllRowsResolved(listing, items, index, false)
    ensures Lists(listing, InFiles(items, order))
    ensures |InFiles(items, order)| == |LinesInFiles(items, records, order)| == |items|
    ensures Exported(listing, InFiles(items, order), index, LinesInFiles(items, records, order))
    ensures AllRowsResolved(listing, InFiles(items, order), index, false)
  {
    hide Portable, AllResolved, FileOrder;
    FilesListAll(items, order);
    SameCount(KeysOf(items), KeysOf(InFiles(items, order)));
    var positions := FileOrder(items, order);
    FileOrderAre(items, order);
    forall i | 0 <= i < |positions|
      ensures positions[i] < |items|
    {
      assert positions[i] in positions;
    }
  }

  lemma {:induction false} SameCount(a: seq<Key>, b: seq<Key>)
    requires Distinct(a) && Distinct(b) && forall k :: k in a <==> k in b
    ensures |a| == |b|
  {
    DistinctCount(a);
    DistinctCount(b);
    assert (set k | k in a) == (set k | k in b);
  }

  /** The server ends with one copy of every row, references included, under the new ids. */
  ghost predicate Rebuilds(listing: Listing, items: seq<Item>, order: seq<TypeName>, index: RefIndex, mints: seq<Mint>,
          store: seq<Item>) {
    && |InFiles(items, order)| == |mints|
    && AllRebuilt(listing.descs, InFiles(items, order), index, mints, store, |mints|)
  }

  /** Migrating through a directory: once the export is written, nothing fails exactly when every row
      is read after all it refers to; and with the types in an order that has targets first, exactly
      when the rows are acyclic. */
  method MigrateFiles(listing: Listing, names: seq<TypeName>, sorted: map<TypeName, seq<Node>>, order: seq<TypeName>,
          target: Importer, mints: seq<Mint>, ghost registered: seq<TypeName>,
          ghost refs: map<TypeName, seq<Reference>>)
    returns (failed: nat, result: ImportResult, items: seq<Item>, index: RefIndex, ghost nodeIndex: NodeIndex)
    requires Nameable(listing) && SortsRows(sorted, listing) && forall t :: t in names <==> t in sorted
    requires Distinct(order) && (forall t :: t in listing.nodes ==> t in order)
    requires Registers(refs, listing) && forall t :: t in order <==> t in registered
    requires |mints| == |listing.Keys()| && Willing(mints)
    requires target.descs == listing.descs && !target.dryRun
    requires target.State() == Known(map[], map[], [], target.sprint, target.failing)
    requires Apart(target.sprint, Identities(listing))
    modifies target`cache, target`aliases, target`store, target`failing
    ensures Indexes(nodeIndex, listing) && IsReferenceIndex(index, listing) && Scheduled(listing, nodeIndex, items)
    ensures HasTypes(items, order)
    ensures failed == 0 <==> AllRowsResolved(listing, items, index, false)
    ensures failed > 0 ==> target.State() == old(target.State())
    ensures failed == 0 ==>
      (result.errors == 0 <==> TargetsReadFirst(RowGraph(listing, nodeIndex), items, order))
    ensures failed == 0 && TargetsFirst(TypeGraph(registered, refs), order) ==>
      (result.errors == 0 <==> Acyclic(RowGraph(listing, nodeIndex)))
    ensures failed == 0 && result.errors == 0 ==> Rebuilds(listing, items, order, index, mints, target.store)
  {
    hide IsReferenceIndex, Indexes, RowGraph, KeysOf, AllRowsResolved, Willing, SortsRows, TargetsFirst, Acyclic,
        Distinct, Exported, AllRebuilt, TypeGraph, TargetsReadFirst, InFiles, LinesInFiles, FileOf, FileOrder,
        Identified, NoFalseRefs, Apart, NamedRows, Identities;
    var records;
    items, index, records, failed, nodeIndex := Export(listing, names, sorted, false);
    result := ImportResult(0, 0, 0, 0);
    ItemsHaveTypes(listing, items, order);
    AsManyItems(listing, nodeIndex, items);
    if failed == 0 {
      FilesAreExport(listing, items, index, records, order);
      var files := WriteFiles(items, records, listing.nodes.Keys);
      var lines := ReadFiles(files, order, items, records);
      LinesHaveTypes(listing, InFiles(items, order), index, lines);
      PlanOf(listing, nodeIndex, index, InFiles(items, order));
      NamedApart(listing, InFiles(items, order), target.sprint);
      RowGraphKeys(listing, nodeIndex);
      FilesKeepTargets(RowGraph(listing, nodeIndex), items, order);
      if TargetsFirst(TypeGraph(registered, refs), order) {
        FilesKeepAcyclicRows(listing, nodeIndex, items, registered, refs, order);
      }
      ghost var outcomes;
      result, outcomes := ImportStream(target, lines, mints, listing, nodeIndex, index, InFiles(items, order));
    }
  }

  lemma {:induction false} ItemsHaveTypes(listing: Listing, items: seq<Item>, order: seq<TypeName>)
    requires Lists(listing, items) && Distinct(order) && forall t :: t in listing.nodes ==> t in order
    ensures HasTypes(items, order) && forall item :: item in items ==> item.typ in listing.nodes
  {
  }
}
