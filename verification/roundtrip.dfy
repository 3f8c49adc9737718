/** Export, then import into an empty server: the same entities come back under new ids. */
module RoundTrip {
  import opened Wrappers
  import opened Graphs
  import opened Records
  import opened Ordering
  import opened Exporting
  import opened Importing

  predicate CarriesRef(v: Value) {
    HoldsRef(v) || (v.List? && exists elem :: elem in v.elems && HoldsRef(elem))
  }

  /** What the stream needs to name every row: each type keyed, each identity complete and unique,
      no ordinary field that could be taken for a $ref. */
  ghost predicate Nameable(listing: Listing) {
    && listing.Valid() && ValidDescriptors(listing.descs) && NoTypename(listing)
    && (forall t :: t in listing.descs ==> t != EMPTY && listing.descs[t].identityFields != [])
    && (forall t :: t in listing.nodes ==>
        Identified(listing.descs[t], listing.nodes[t]) && NoFalseRefs(listing.descs[t], listing.nodes[t]))
  }

  ghost predicate Identified(desc: Descriptor, rows: seq<Node>) {
    && (forall node :: node in rows ==> Complete(desc.identityFields, node))
    && (forall a, b :: a in rows && b in rows && Parts(desc.identityFields, a) == Parts(desc.identityFields, b) ==>
        a == b)
  }

  ghost predicate NoFalseRefs(desc: Descriptor, rows: seq<Node>) {
    forall node, f :: node in rows && Plain(desc, node, f) ==> !CarriesRef(node[f])
  }

  /** A line of the file as the parser hands it to the importer. */
  function Parsed(line: Node): Record
    requires Typename in line && line[Typename].Str?
  {
    Record(line[Typename].text, line - {Typename}, EMPTY)
  }

  // ---- The renaming of ids ----

  function Renaming(items: seq<Item>, mints: seq<Mint>): map<Key, Text>
    requires |items| == |mints|
  {
    if items == [] then map[]
    else
      var n := |items| - 1;
      Renaming(items[..n], mints[..n])[items[n].Key() := mints[n].id]
  }

  lemma {:induction false} RenamingAt(items: seq<Item>, mints: seq<Mint>, j: nat)
    requires |items| == |mints| && j < |items|
    requires forall h, l :: 0 <= h < l < |items| ==> items[h].Key() != items[l].Key()
    ensures items[j].Key() in Renaming(items, mints) && Renaming(items, mints)[items[j].Key()] == mints[j].id
  {
    if j < |items| - 1 {
      RenamingAt(items[..|items| - 1], mints[..|items| - 1], j);
    }
  }

  /** A foreign key with every id renamed. */
  function Renamed(rho: map<Key, Text>, target: TypeName, v: Value): Value {
    match v
    case Str(text) => if Key(target, text) in rho then Str(rho[Key(target, text)]) else v
    case List(elems) => List(RenamedElems(rho, target, elems))
    case _ => v
  }

  function RenamedElems(rho: map<Key, Text>, target: TypeName, elems: seq<Value>): seq<Value> {
    if elems == [] then []
    else
      var last := elems[|elems| - 1];
      RenamedElems(rho, target, elems[..|elems| - 1])
      + [if last.Str? && Key(target, last.text) in rho then Str(rho[Key(target, last.text)]) else last]
  }

  /** copy is node rebuilt under its new id: every plain field as it was, every reference the export
      could write with its ids renamed, and beyond those only fields the server fills in. */
  ghost predicate Rebuilt(desc: Descriptor, node: Node, index: RefIndex, rho: map<Key, Text>, id: Text, copy: Node) {
    && At(copy, Id) == Str(id)
    && (forall f :: Plain(desc, node, f) ==> f in copy && copy[f] == node[f])
    && (forall r :: r in desc.references ==>
          if RewriteOf(index, r.target, At(node, r.field)).Written?
          then r.field in copy && copy[r.field] == Renamed(rho, r.target, At(node, r.field))
          else r.field !in copy)
    && (forall f :: f in copy ==> ServerManaged(f) || Plain(desc, node, f) || IsReference(desc.references, f))
  }

  ghost predicate AllRebuilt(descs: map<TypeName, Descriptor>, items: seq<Item>, index: RefIndex, mints: seq<Mint>,
          store: seq<Item>, n: nat)
    requires n <= |items| == |mints|
  {
    && |store| == n
    && forall j :: 0 <= j < n ==>
      && items[j].typ in descs && store[j].typ == items[j].typ
      && Rebuilt(descs[items[j].typ], items[j].node, index, Renaming(items, mints), mints[j].id, store[j].node)
  }

  // ---- One record ----

  lemma {:induction false} PayloadIdentity(t: TypeName, desc: Descriptor, node: Node)
    requires desc.identityFields != [] && Typename !in desc.identityFields && Complete(desc.identityFields, node)
    ensures IdentityOf(desc, Payload(t, desc.identityFields, node)) == Some(Parts(desc.identityFields, node))
    ensures At(Payload(t, desc.identityFields, node), Typename) == Str(t)
  {
    var payload := Payload(t, desc.identityFields, node);
    assert forall i :: 0 <= i < |desc.identityFields| ==> desc.identityFields[i] in payload;
    assert Parts(desc.identityFields, payload) == Parts(desc.identityFields, node);
  }

  lemma {:induction false} NothingToResolve(descs: map<TypeName, Descriptor>, known: Known, elems: seq<Value>)
    requires forall elem :: elem in elems ==> !HoldsRef(elem)
    ensures ResolveElems(descs, known, elems) == Ok(elems)
  {
    if elems != [] {
      NothingToResolve(descs, known, elems[..|elems| - 1]);
      assert elems == elems[..|elems| - 1] + [elems[|elems| - 1]];
    }
  }

  lemma {:induction false} PlainStays(descs: map<TypeName, Descriptor>, known: Known, v: Value)
    requires !CarriesRef(v)
    ensures ResolveValue(descs, known, v) == Ok(v)
  {
    if v.List? {
      NothingToResolve(descs, known, v.elems);
    }
  }

  function IdentityAt(descs: map<TypeName, Descriptor>, item: Item): Identity
    requires item.typ in descs
  {
    Identity(item.typ, Parts(descs[item.typ].identityFields, item.node))
  }

  /** The identities of the scheduled rows, which are those the $refs name. */
  ghost function NamedRows(descs: map<TypeName, Descriptor>, items: seq<Item>): set<Identity> {
    set item | item in items && item.typ in descs :: IdentityAt(descs, item)
  }

  /** The identities of the listed rows. */
  ghost function Identities(listing: Listing): set<Identity>
    requires listing.Valid()
  {
    set t, node | t in listing.nodes && node in listing.nodes[t] :: IdentityAt(listing.descs, Item(t, node))
  }

  lemma {:induction false} NamedAreListed(listing: Listing, items: seq<Item>)
    requires listing.Valid() && Lists(listing, items)
    ensures NamedRows(listing.descs, items) <= Identities(listing)
  {
    forall id | id in NamedRows(listing.descs, items)
      ensures id in Identities(listing)
    {
      var item :| item in items && item.typ in listing.descs && IdentityAt(listing.descs, item) == id;
      assert item == Item(item.typ, item.node);
    }
  }

  lemma {:induction false} NamedApart(listing: Listing, items: seq<Item>, sprint: Value -> string)
    requires listing.Valid() && Lists(listing, items) && Apart(sprint, Identities(listing))
    ensures Apart(sprint, NamedRows(listing.descs, items))
  {
    hide NamedRows, Identities, Joined, Lists;
    NamedAreListed(listing, items);
  }

  /** The first i rows are there, and a $ref to any of them is answered with its new id. */
  ghost predicate Answers(descs: map<TypeName, Descriptor>, items: seq<Item>, mints: seq<Mint>, i: nat, known: Known)
    requires i <= |items| == |mints|
  {
    forall j :: 0 <= j < i ==>
      && items[j].typ in descs
      && KeyOf(known.sprint, IdentityAt(descs, items[j])) in known.cache
      && known.cache[KeyOf(known.sprint, IdentityAt(descs, items[j]))] == mints[j].id
  }

  /** What the export worked out, its two indexes, and an order of the rows whose first n come after
      everything they refer to. */
  ghost predicate Plan(listing: Listing, nodeIndex: NodeIndex, index: RefIndex, items: seq<Item>, n: nat) {
    && Nameable(listing) && Indexes(nodeIndex, listing) && IsReferenceIndex(index, listing)
    && Lists(listing, items)
    && n <= |items| && TargetsFirst(RowGraph(listing, nodeIndex), KeysOf(items)[..n])
  }

  lemma {:induction false} ScheduledRow(listing: Listing, nodeIndex: NodeIndex, index: RefIndex, items: seq<Item>,
          n: nat, i: nat)
    requires Plan(listing, nodeIndex, index, items, n) && i < |items|
    ensures listing.HasRow(items[i].Key(), items[i].node) && items[i].typ in listing.descs
    ensures ValidReferences(listing.descs[items[i].typ].references) && Typename !in items[i].node
    ensures listing.descs[items[i].typ].identityFields != []
    ensures Identified(listing.descs[items[i].typ], listing.nodes[items[i].typ])
    ensures NoFalseRefs(listing.descs[items[i].typ], listing.nodes[items[i].typ])
    ensures forall f :: f in listing.descs[items[i].typ].identityFields ==>
      f.Named? && !IsReference(listing.descs[items[i].typ].references, f)
  {
    hide Indexes, IsReferenceIndex, RowGraph, TargetsFirst, Acyclic, Identified, NoFalseRefs, KeysOf, Distinct;
    assert items[i] in items;
  }

  /** The target of a written reference was scheduled earlier. */
  lemma {:induction false} TargetEarlier(listing: Listing, nodeIndex: NodeIndex, index: RefIndex, items: seq<Item>,
          n: nat, i: nat, r: Reference, id: Text) returns (j: nat)
    requires Plan(listing, nodeIndex, index, items, n) && i < n <= |items|
    requires items[i].typ in listing.descs && r in listing.descs[items[i].typ].references
    requires id in ReferencedIds(At(items[i].node, r.field)) && Key(r.target, id) in listing.Keys()
    ensures j < i && items[j].Key() == Key(r.target, id)
  {
    ScheduledRow(listing, nodeIndex, index, items, n, i);
    var h :| 0 <= h < |listing.descs[items[i].typ].references| && listing.descs[items[i].typ].references[h] == r;
    j := EdgeEarlier(listing, nodeIndex, items, n, i, h, id);
  }

  lemma {:induction false} EdgeEarlier(listing: Listing, nodeIndex: NodeIndex, items: seq<Item>, n: nat, i: nat, h: nat,
          id: Text) returns (j: nat)
    requires listing.Valid() && Indexes(nodeIndex, listing) && i < n <= |items|
        && listing.HasRow(items[i].Key(), items[i].node)
    requires TargetsFirst(RowGraph(listing, nodeIndex), KeysOf(items)[..n])
    requires h < |listing.descs[items[i].typ].references|
    requires id in ReferencedIds(At(items[i].node, listing.descs[items[i].typ].references[h].field))
    requires Key(listing.descs[items[i].typ].references[h].target, id) in listing.Keys()
    ensures j < i && items[j].Key() == Key(listing.descs[items[i].typ].references[h].target, id)
  {
    var w := Key(listing.descs[items[i].typ].references[h].target, id);
    hide *;
    NamedIsEdge(listing, nodeIndex, items[i], h, id);
    j := EdgeOrdered(RowGraph(listing, nodeIndex), items, n, i, w);
  }

  lemma {:induction false} NamedIsEdge(listing: Listing, nodeIndex: NodeIndex, item: Item, h: nat, id: Text)
    requires listing.Valid() && Indexes(nodeIndex, listing) && listing.HasRow(item.Key(), item.node)
    requires h < |listing.descs[item.typ].references|
    requires id in ReferencedIds(At(item.node, listing.descs[item.typ].references[h].field))
    requires Key(listing.descs[item.typ].references[h].target, id) in listing.Keys()
    ensures Edge(RowGraph(listing, nodeIndex), item.Key(), Key(listing.descs[item.typ].references[h].target, id))
  {
    hide RowGraph, Indexes, IdsIn, IndexesRows, Edge, ReferencedIds;
    var ref := listing.descs[item.typ].references[h];
    var w := Key(ref.target, id);
    KeyIndexed(listing, nodeIndex, w);
    ReferenceIsEdge(listing, nodeIndex, item.typ, item.node, h);
    assert Names(item.node, ref, w);
  }

  /** With targets first, the target of an edge stands earlier among the items. */
  lemma {:induction false} EdgeOrdered(g: map<Key, set<Key>>, items: seq<Item>, n: nat, i: nat, w: Key) returns (j: nat)
    requires i < n <= |items| && TargetsFirst(g, KeysOf(items)[..n]) && Edge(g, items[i].Key(), w)
    ensures j < i && items[j].Key() == w
  {
    hide Edge;
    assert KeysOf(items)[..n][i] == items[i].Key();
    j :| 0 <= j < i && KeysOf(items)[..n][..i][j] == w;
  }

  lemma {:induction false} KeyIndexed(listing: Listing, nodeIndex: NodeIndex, k: Key)
    requires Indexes(nodeIndex, listing) && k in listing.Keys()
    ensures k.typ in nodeIndex && k.id in nodeIndex[k.typ]
  {
  }

  lemma {:induction false} IdsInAt(elems: seq<Value>, k: nat)
    requires k < |elems| && elems[k].Str? && elems[k].text != EMPTY
    ensures elems[k].text in IdsIn(elems)
  {
    if k < |elems| - 1 {
      IdsInAt(elems[..|elems| - 1], k);
    }
  }

  /** One $ref resolves to the new id of the row it names. */
  lemma {:induction false} RefResolves(listing: Listing, nodeIndex: NodeIndex, index: RefIndex, items: seq<Item>,
          n: nat, mints: seq<Mint>, i: nat, known: Known, r: Reference, id: Text)
    requires Plan(listing, nodeIndex, index, items, n)
    requires i < n <= |items| && |items| == |mints| && Answers(listing.descs, items, mints, i, known)
    requires items[i].typ in listing.descs && r in listing.descs[items[i].typ].references
    requires id in ReferencedIds(At(items[i].node, r.field)) && r.target in index && id in index[r.target]
    ensures Key(r.target, id) in Renaming(items, mints)
    ensures ResolveElem(listing.descs, known, RefTo(index[r.target][id])) ==
        Ok(Str(Renaming(items, mints)[Key(r.target, id)]))
  {
    hide Plan, ReferencedIds, Answers, Identified, IdentityOf, Payload, Complete, Renaming;
    var node := IndexedRowOf(listing, nodeIndex, index, items, n, r.target, id);
    var desc := listing.descs[r.target];
    var j := TargetEarlier(listing, nodeIndex, index, items, n, i, r, id);
    ScheduledRow(listing, nodeIndex, index, items, n, j);
    SameRow(listing.nodes[r.target], node, items[j].node);
    DistinctItems(listing, nodeIndex, index, items, n);
    RenamingAt(items, mints, j);
    PayloadIdentity(r.target, desc, node);
    AnswerFor(listing.descs, items, mints, i, known, j);
  }

  lemma {:induction false} AnswerFor(descs: map<TypeName, Descriptor>, items: seq<Item>, mints: seq<Mint>, i: nat,
          known: Known, j: nat)
    requires j < i <= |items| == |mints| && Answers(descs, items, mints, i, known)
    ensures items[j].typ in descs
    ensures Answer(descs, known, items[j].typ, Parts(descs[items[j].typ].identityFields, items[j].node)) ==
        Ok(mints[j].id)
  {
  }

  /** An indexed id belongs to a listed row of a keyed type. */
  lemma {:induction false} IndexedRowOf(listing: Listing, nodeIndex: NodeIndex, index: RefIndex, items: seq<Item>,
          n: nat, t: TypeName, id: Text) returns (node: Node)
    requires Plan(listing, nodeIndex, index, items, n) && t in index && id in index[t]
    ensures t in listing.nodes && t in listing.descs && t != EMPTY && id != EMPTY && DistinctIds(listing.nodes[t])
    ensures listing.descs[t].identityFields != [] && Typename !in listing.descs[t].identityFields
    ensures node in listing.nodes[t] && IdOf(node) == id && Complete(listing.descs[t].identityFields, node)
    ensures index[t][id] == Payload(t, listing.descs[t].identityFields, node)
    ensures Key(t, id) in listing.Keys()
  {
    hide RowGraph, TargetsFirst, Indexes, Complete, Payload, KeysOf, Identified, NoFalseRefs, IsReference, DistinctIds;
    assert IndexesIdentities(index[t], t, listing.descs[t], listing.nodes[t]);
    NameableType(listing, t);
    node := IdentityRow(index[t], t, listing.descs[t], listing.nodes[t], id);
  }

  lemma {:induction false} NameableType(listing: Listing, t: TypeName)
    requires Nameable(listing) && t in listing.descs && t in listing.nodes
    ensures t != EMPTY && DistinctIds(listing.nodes[t]) && listing.descs[t].identityFields != []
    ensures Typename !in listing.descs[t].identityFields
  {
    hide Identified, NoFalseRefs, DistinctIds, NoTypename, IsReference, ValidReferences;
  }

  /** The row an indexed identity was taken from. */
  lemma {:induction false} IdentityRow(targets: map<Text, Node>, t: TypeName, desc: Descriptor, rows: seq<Node>,
          id: Text) returns (node: Node)
    requires IndexesIdentities(targets, t, desc, rows) && id in targets && DistinctIds(rows)
    ensures node in rows && IdOf(node) == id && id != EMPTY && Complete(desc.identityFields, node)
    ensures targets[id] == Payload(t, desc.identityFields, node)
  {
    hide Complete, Payload;
    node :| node in rows && IdOf(node) == id && Complete(desc.identityFields, node)
            && targets[id] == Payload(t, desc.identityFields, node);
    var i :| 0 <= i < |rows| && rows[i] == node;
  }

  lemma {:induction false} SameRow(rows: seq<Node>, a: Node, b: Node)
    requires DistinctIds(rows) && a in rows && b in rows && IdOf(a) == IdOf(b)
    ensures a == b
  {
  }

  lemma {:induction false} DistinctItems(listing: Listing, nodeIndex: NodeIndex, index: RefIndex, items: seq<Item>,
          n: nat)
    requires Plan(listing, nodeIndex, index, items, n)
    ensures forall h, l :: 0 <= h < l < |items| ==> items[h].Key() != items[l].Key()
  {
    forall h, l | 0 <= h < l < |items|
      ensures items[h].Key() != items[l].Key()
    {
      assert KeysOf(items)[h] != KeysOf(items)[l];
    }
  }

  lemma {:induction false} ElemsResolve(listing: Listing, nodeIndex: NodeIndex, index: RefIndex, items: seq<Item>,
          n: nat, mints: seq<Mint>, i: nat, known: Known, r: Reference, elems: seq<Value>, out: seq<Value>)
    requires Plan(listing, nodeIndex, index, items, n)
    requires i < n <= |items| && |items| == |mints| && Answers(listing.descs, items, mints, i, known)
    requires items[i].typ in listing.descs && r in listing.descs[items[i].typ].references && r.target in index
    requires forall k :: 0 <= k < |elems| && elems[k].Str? && elems[k].text in index[r.target] ==>
      elems[k].text in ReferencedIds(At(items[i].node, r.field))
    requires RewriteElems(elems, index[r.target]) == Some(out)
    ensures ResolveElems(listing.descs, known, out) == Ok(RenamedElems(Renaming(items, mints), r.target, elems))
  {
    hide Plan, ReferencedIds, Answers, Renaming, ResolveElem;
    if elems != [] {
      var init, last := elems[..|elems| - 1], elems[|elems| - 1];
      ElemsResolve(listing, nodeIndex, index, items, n, mints, i, known, r, init,
          RewriteElems(init, index[r.target]).value);
      assert out[..|out| - 1] == RewriteElems(init, index[r.target]).value;
      RefResolves(listing, nodeIndex, index, items, n, mints, i, known, r, last.text);
    }
  }

  /** A whole reference field resolves to the renamed foreign key. */
  lemma {:induction false} ReferenceResolves(listing: Listing, nodeIndex: NodeIndex, index: RefIndex, items: seq<Item>,
          n: nat, mints: seq<Mint>, i: nat, known: Known, r: Reference)
    requires Plan(listing, nodeIndex, index, items, n)
    requires i < n <= |items| && |items| == |mints| && Answers(listing.descs, items, mints, i, known)
    requires items[i].typ in listing.descs && r in listing.descs[items[i].typ].references
    requires RewriteOf(index, r.target, At(items[i].node, r.field)).Written?
    ensures ResolveValue(listing.descs, known, RewriteOf(index, r.target, At(items[i].node, r.field)).value)
         == Ok(Renamed(Renaming(items, mints), r.target, At(items[i].node, r.field)))
  {
    hide Plan, Answers, Renaming, RewriteElems;
    var v := At(items[i].node, r.field);
    match v
    case Str(text) =>
      RefResolves(listing, nodeIndex, index, items, n, mints, i, known, r, text);
    case List(elems) =>
      forall k | 0 <= k < |elems| && elems[k].Str? && elems[k].text in index[r.target]
        ensures elems[k].text in ReferencedIds(v)
      {
        var node := IndexedRowOf(listing, nodeIndex, index, items, n, r.target, elems[k].text);
        IdsInAt(elems, k);
      }
      ElemsResolve(listing, nodeIndex, index, items, n, mints, i, known, r, elems,
          RewriteElems(elems, index[r.target]).value);
  }

  /** data is the record of node with its references resolved. */
  ghost predicate Carries(desc: Descriptor, node: Node, index: RefIndex, rho: map<Key, Text>, data: Node) {
    && (forall f :: Plain(desc, node, f) ==> f in data && data[f] == node[f])
    && (forall r :: r in desc.references ==>
          if RewriteOf(index, r.target, At(node, r.field)).Written?
          then r.field in data && data[r.field] == Renamed(rho, r.target, At(node, r.field))
          else r.field !in data)
    && (forall f :: f in data ==> Plain(desc, node, f) || IsReference(desc.references, f))
  }

  /** What every field of line i resolves to. */
  lemma {:induction false} FieldResolves(listing: Listing, nodeIndex: NodeIndex, index: RefIndex, items: seq<Item>,
          n: nat, mints: seq<Mint>, i: nat, known: Known, line: Node, f: Field)
    requires Plan(listing, nodeIndex, index, items, n)
    requires i < n <= |items| && |items| == |mints| && Answers(listing.descs, items, mints, i, known)
        && items[i].typ in listing.descs
    requires Exporting.Portable(items[i].typ, listing.descs[items[i].typ], items[i].node, index, line)
    requires f in line && f != Typename
    ensures Plain(listing.descs[items[i].typ], items[i].node, f) ==>
      line[f] == items[i].node[f] && ResolveValue(listing.descs, known, line[f]) == Ok(items[i].node[f])
    ensures forall r :: r in listing.descs[items[i].typ].references && r.field == f ==>
      && RewriteOf(index, r.target, At(items[i].node, f)).Written?
      && ResolveValue(listing.descs, known, line[f]) ==
          Ok(Renamed(Renaming(items, mints), r.target, At(items[i].node, f)))
    ensures Plain(listing.descs[items[i].typ], items[i].node, f)
        || IsReference(listing.descs[items[i].typ].references, f)
  {
    hide Plan, Answers, Renaming, ResolveValue, RewriteOf, Renamed;
    var desc, node := listing.descs[items[i].typ], items[i].node;
    assert desc.references[..|desc.references|] == desc.references;
    if Plain(desc, node, f) {
      NoFalseRef(listing, nodeIndex, index, items, n, i, f);
      PlainStays(listing.descs, known, node[f]);
    }
    forall r | r in desc.references && r.field == f
      ensures RewriteOf(index, r.target, At(node, f)).Written?
      ensures ResolveValue(listing.descs, known, line[f]) == Ok(Renamed(Renaming(items, mints), r.target, At(node, f)))
    {
      var h :| 0 <= h < |desc.references| && desc.references[h] == r;
      ReferenceResolves(listing, nodeIndex, index, items, n, mints, i, known, r);
    }
  }

  lemma {:induction false} NoFalseRef(listing: Listing, nodeIndex: NodeIndex, index: RefIndex, items: seq<Item>, n: nat,
          i: nat, f: Field)
    requires Plan(listing, nodeIndex, index, items, n)
    requires i < |items| && items[i].typ in listing.descs && Plain(listing.descs[items[i].typ], items[i].node, f)
    ensures !CarriesRef(items[i].node[f])
  {
    hide Plan;
    ScheduledRow(listing, nodeIndex, index, items, n, i);
  }

  /** Line i resolves completely, to the row with its references renamed. */
  lemma {:induction false} LineResolves(listing: Listing, nodeIndex: NodeIndex, index: RefIndex, items: seq<Item>,
          n: nat, mints: seq<Mint>, i: nat, known: Known, line: Node)
    requires Plan(listing, nodeIndex, index, items, n)
    requires i < n <= |items| && |items| == |mints| && Answers(listing.descs, items, mints, i, known)
        && items[i].typ in listing.descs
    requires Exporting.Portable(items[i].typ, listing.descs[items[i].typ], items[i].node, index, line)
    ensures AllResolve(listing.descs, known, line - {Typename})
    ensures forall data :: Resolves(listing.descs, known, line - {Typename}, data) ==>
      Carries(listing.descs[items[i].typ], items[i].node, index, Renaming(items, mints), data)
  {
    hide Plan, Answers, Renaming, ResolveValue, RewriteOf, Renamed;
    var desc, node, rho := listing.descs[items[i].typ], items[i].node, Renaming(items, mints);
    forall f | f in line && f != Typename
      ensures ResolveValue(listing.descs, known, line[f]).Ok?
    {
      FieldResolves(listing, nodeIndex, index, items, n, mints, i, known, line, f);
      if IsReference(desc.references, f) {
        var h :| 0 <= h < |desc.references| && desc.references[h].field == f;
        assert desc.references[h] in desc.references;
      }
    }
    forall data | Resolves(listing.descs, known, line - {Typename}, data)
      ensures Carries(desc, node, index, rho, data)
    {
      forall f | f in data
        ensures Plain(desc, node, f) || IsReference(desc.references, f)
      {
        FieldResolves(listing, nodeIndex, index, items, n, mints, i, known, line, f);
      }
      NamedFields(listing, nodeIndex, index, items, n, i);
      forall f | Plain(desc, node, f)
        ensures f in data && data[f] == node[f]
      {
        FieldResolves(listing, nodeIndex, index, items, n, mints, i, known, line, f);
      }
      forall r | r in desc.references
        ensures if RewriteOf(index, r.target, At(node, r.field)).Written?
                then r.field in data && data[r.field] == Renamed(rho, r.target, At(node, r.field))
                else r.field !in data
      {
        var h :| 0 <= h < |desc.references| && desc.references[h] == r;
        if RewriteOf(index, r.target, At(node, r.field)).Written? {
          FieldResolves(listing, nodeIndex, index, items, n, mints, i, known, line, r.field);
        }
      }
    }
  }

  lemma {:induction false} NamedFields(listing: Listing, nodeIndex: NodeIndex, index: RefIndex, items: seq<Item>,
          n: nat, i: nat)
    requires Plan(listing, nodeIndex, index, items, n) && i < n <= |items| && items[i].typ in listing.descs
    ensures forall r :: r in listing.descs[items[i].typ].references ==> r.field.Named?
    ensures Typename !in items[i].node && listing.descs[items[i].typ].identityFields != []
    ensures forall f :: f in listing.descs[items[i].typ].identityFields ==>
      f.Named? && f in items[i].node && Plain(listing.descs[items[i].typ], items[i].node, f)
    ensures Complete(listing.descs[items[i].typ].identityFields, items[i].node)
  {
    hide Plan, Complete;
    ScheduledRow(listing, nodeIndex, index, items, n, i);
    DescriptorFields(listing.descs[items[i].typ], listing.nodes[items[i].typ], items[i].node);
  }

  lemma {:induction false} DescriptorFields(desc: Descriptor, rows: seq<Node>, node: Node)
    requires ValidReferences(desc.references) && node in rows && Identified(desc, rows)
    requires forall f :: f in desc.identityFields ==> f.Named? && !IsReference(desc.references, f)
    ensures forall r :: r in desc.references ==> r.field.Named?
    ensures forall f :: f in desc.identityFields ==> f in node && Plain(desc, node, f)
    ensures Complete(desc.identityFields, node)
  {
  }

  lemma {:induction false} SameParts(fields: seq<Field>, a: Node, b: Node)
    requires forall f :: f in fields ==> At(a, f) == At(b, f)
    ensures Parts(fields, a) == Parts(fields, b)
    ensures Complete(fields, a) <==> Complete(fields, b)
  {
  }

  /** The identity of a resolved record, and of the row made from it, is the original's. */
  lemma {:induction false} IdentityCarried(listing: Listing, nodeIndex: NodeIndex, index: RefIndex, items: seq<Item>,
          n: nat, i: nat, rho: map<Key, Text>, data: Node, mint: Mint)
    requires Plan(listing, nodeIndex, index, items, n) && i < n <= |items| && items[i].typ in listing.descs
    requires Carries(listing.descs[items[i].typ], items[i].node, index, rho, data) && ValidMint(mint)
    ensures IdentityOf(listing.descs[items[i].typ], data) ==
        Some(Parts(listing.descs[items[i].typ].identityFields, items[i].node))
    ensures IdentityOf(listing.descs[items[i].typ], NewNode(data, mint)) ==
        IdentityOf(listing.descs[items[i].typ], data)
  {
    hide Plan;
    NamedFields(listing, nodeIndex, index, items, n, i);
    var fields := listing.descs[items[i].typ].identityFields;
    SameParts(fields, items[i].node, data);
    SameParts(fields, NewNode(data, mint), data);
  }

  lemma {:induction false} RebuiltIdentity(listing: Listing, nodeIndex: NodeIndex, index: RefIndex, items: seq<Item>,
          n: nat, j: nat, rho: map<Key, Text>, id: Text, copy: Node)
    requires Plan(listing, nodeIndex, index, items, n) && j < n <= |items| && items[j].typ in listing.descs
    requires Rebuilt(listing.descs[items[j].typ], items[j].node, index, rho, id, copy)
    ensures Parts(listing.descs[items[j].typ].identityFields, copy) ==
        Parts(listing.descs[items[j].typ].identityFields, items[j].node)
  {
    hide Plan;
    NamedFields(listing, nodeIndex, index, items, n, j);
    SameParts(listing.descs[items[j].typ].identityFields, copy, items[j].node);
  }

  ghost predicate Answering(mint: Mint) { forall id :: !mint.failing(id) }

  /** No earlier row has this identity, so the record is created. */
  lemma {:induction false} NothingExists(listing: Listing, nodeIndex: NodeIndex, index: RefIndex, items: seq<Item>,
          n: nat, mints: seq<Mint>, i: nat, store: seq<Item>, data: Node)
    requires Plan(listing, nodeIndex, index, items, n) && i < n <= |items| && |items| == |mints|
        && items[i].typ in listing.descs
    requires AllRebuilt(listing.descs, items, index, mints, store, i)
    requires Carries(listing.descs[items[i].typ], items[i].node, index, Renaming(items, mints), data)
        && ValidMint(mints[i]) && Answering(mints[i])
    ensures Decide(listing.descs[items[i].typ], mints[i].failing, store, items[i].typ, data) == Make
  {
    hide Plan, Renaming, Rebuilt, Carries;
    var typ, desc := items[i].typ, listing.descs[items[i].typ];
    var parts := Parts(desc.identityFields, items[i].node);
    IdentityCarried(listing, nodeIndex, index, items, n, i, Renaming(items, mints), data, mints[i]);
    MatchesAre(store, typ, desc.identityFields, parts);
    DistinctItems(listing, nodeIndex, index, items, n);
    forall j | 0 <= j < |store|
      ensures !RowMatches(store[j], typ, desc.identityFields, parts)
    {
      RebuiltIdentity(listing, nodeIndex, index, items, n, j, Renaming(items, mints), mints[j].id, store[j].node);
      if items[j].typ == typ && Parts(desc.identityFields, items[j].node) == parts {
        SameIdentity(listing, nodeIndex, index, items, n, i, j);
      }
    }
  }

  lemma {:induction false} SameIdentity(listing: Listing, nodeIndex: NodeIndex, index: RefIndex, items: seq<Item>,
          n: nat, i: nat, j: nat)
    requires Plan(listing, nodeIndex, index, items, n) && i < n <= |items| && j < n && items[i].typ == items[j].typ
    requires items[i].typ in listing.descs
    requires Parts(listing.descs[items[i].typ].identityFields, items[i].node) ==
        Parts(listing.descs[items[i].typ].identityFields, items[j].node)
    ensures items[i].Key() == items[j].Key()
  {
    hide Plan, Complete, Parts;
    ScheduledRow(listing, nodeIndex, index, items, n, i);
    ScheduledRow(listing, nodeIndex, index, items, n, j);
  }

  lemma {:induction false} NewRowRebuilt(desc: Descriptor, node: Node, index: RefIndex, rho: map<Key, Text>, data: Node,
          mint: Mint)
    requires Carries(desc, node, index, rho, data) && ValidMint(mint) && desc.identityFields != []
    requires forall r :: r in desc.references ==> r.field.Named?
    ensures Rebuilt(desc, node, index, rho, mint.id, NewNode(data, mint))
  {
    forall f | f in NewNode(data, mint) && !ServerManaged(f)
      ensures Plain(desc, node, f) || IsReference(desc.references, f)
    {
    }
  }

  // ---- The whole stream ----

  ghost predicate Mirrored(descs: map<TypeName, Descriptor>, items: seq<Item>, index: RefIndex, mints: seq<Mint>,
          i: nat, known: Known)
    requires i <= |items| == |mints|
  {
    && known.aliases == map[] && Answers(descs, items, mints, i, known) && OnlyKnown(descs, items, i, known)
    && Apart(known.sprint, NamedRows(descs, items))
    && AllRebuilt(descs, items, index, mints, known.store, i)
  }

  /** Nothing is cached but the identities of the first i rows. */
  ghost predicate OnlyKnown(descs: map<TypeName, Descriptor>, items: seq<Item>, i: nat, known: Known)
    requires i <= |items|
  {
    forall key :: key in known.cache && key.typ in descs ==> IdentityAmong(descs, items, i, known.sprint, key)
  }

  ghost predicate IdentityAmong(descs: map<TypeName, Descriptor>, items: seq<Item>, i: nat, sprint: Value -> string,
          key: CacheKey)
    requires i <= |items|
  {
    exists j :: 0 <= j < i && items[j].typ in descs && KeyOf(sprint, IdentityAt(descs, items[j])) == key
  }

  /** An answer can only be one of the rows already made. */
  lemma {:induction false} AnsweredIsAmong(listing: Listing, nodeIndex: NodeIndex, index: RefIndex, items: seq<Item>,
          n: nat, mints: seq<Mint>, i: nat, known: Known, id: Identity)
    requires Plan(listing, nodeIndex, index, items, n) && i <= n <= |items| == |mints|
    requires Mirrored(listing.descs, items, index, mints, i, known)
    requires id.typ in listing.descs && Answer(listing.descs, known, id.typ, id.parts).Ok?
    ensures IdentityAmong(listing.descs, items, i, known.sprint, KeyOf(known.sprint, id))
  {
    hide Plan, Rebuilt, Answers, Apart, NamedRows, Joined;
    var fields := listing.descs[id.typ].identityFields;
    if KeyOf(known.sprint, id) !in known.cache {
      MatchesAre(known.store, id.typ, fields, id.parts);
      var m := Matches(known.store, id.typ, fields, id.parts);
      assert m[0] in m;
      RebuiltIdentity(listing, nodeIndex, index, items, n, m[0], Renaming(items, mints), mints[m[0]].id,
          known.store[m[0]].node);
    }
  }

  /** The server accepts every creation and hands out ids, and answers every query. */
  ghost predicate Willing(mints: seq<Mint>) {
    forall i :: 0 <= i < |mints| ==>
      mints[i].accepts && mints[i].id != EMPTY && ValidMint(mints[i]) && Answering(mints[i])
  }

  lemma {:induction false} MirrorStep(listing: Listing, nodeIndex: NodeIndex, index: RefIndex, items: seq<Item>, n: nat,
          mints: seq<Mint>, i: nat, record: Record, before: Known, after: Known, data: Node)
    requires Plan(listing, nodeIndex, index, items, n) && i < n <= |items| && |items| == |mints| && Willing(mints)
        && items[i].typ in listing.descs
    requires Mirrored(listing.descs, items, index, mints, i, before)
    requires Carries(listing.descs[items[i].typ], items[i].node, index, Renaming(items, mints), data)
    requires record.typ == items[i].typ && record.alias == EMPTY
        && MadeRow(listing.descs, NamedRows(listing.descs, items), record, mints[i], before, after, data)
    ensures Mirrored(listing.descs, items, index, mints, i + 1, after)
  {
    hide Plan, Renaming, AllRebuilt, Carries, NewNode, Resolves, SameAnswers, Answers, Remember, Apart, NamedRows;
    var cache :| SameAnswers(listing.descs, NamedRows(listing.descs, items), before, before.(cache := cache))
      && after.cache == Remember(before.sprint, cache, listing.descs[items[i].typ], items[i].typ,
          NewNode(data, mints[i]), mints[i].id);
    RowMirrored(listing, nodeIndex, index, items, n, mints, i, before, cache, after, data);
  }

  lemma {:induction false} CacheMirrored(listing: Listing, nodeIndex: NodeIndex, index: RefIndex, items: seq<Item>,
          n: nat, mints: seq<Mint>, i: nat, before: Known, cache: map<CacheKey, Text>)
    requires Plan(listing, nodeIndex, index, items, n) && i < n <= |items| && |items| == |mints|
    requires Mirrored(listing.descs, items, index, mints, i, before)
    requires SameAnswers(listing.descs, NamedRows(listing.descs, items), before, before.(cache := cache))
    ensures forall key :: key in cache && key.typ in listing.descs ==>
      IdentityAmong(listing.descs, items, i, before.sprint, key)
  {
    hide Plan, Answers, AllRebuilt, Apart, IdentityAmong, Joined, NamedRows;
    forall key | key in cache && key.typ in listing.descs
      ensures IdentityAmong(listing.descs, items, i, before.sprint, key)
    {
      if key !in before.cache {
        var id :| id in NamedRows(listing.descs, items) && KeyOf(before.sprint, id) == key;
        assert Answer(listing.descs, before, id.typ, id.parts) ==
            Answer(listing.descs, before.(cache := cache), id.typ, id.parts);
        AnsweredIsAmong(listing, nodeIndex, index, items, n, mints, i, before, id);
      }
    }
  }

  lemma {:induction false} RowMirrored(listing: Listing, nodeIndex: NodeIndex, index: RefIndex, items: seq<Item>,
          n: nat, mints: seq<Mint>, i: nat, before: Known, cache: map<CacheKey, Text>, after: Known, data: Node)
    requires Plan(listing, nodeIndex, index, items, n) && i < n <= |items| && |items| == |mints| && Willing(mints)
        && items[i].typ in listing.descs
    requires Mirrored(listing.descs, items, index, mints, i, before)
    requires Carries(listing.descs[items[i].typ], items[i].node, index, Renaming(items, mints), data)
    requires SameAnswers(listing.descs, NamedRows(listing.descs, items), before, before.(cache := cache))
    requires after.cache == Remember(before.sprint, cache, listing.descs[items[i].typ], items[i].typ,
        NewNode(data, mints[i]), mints[i].id)
    requires after.store == before.store + [Item(items[i].typ, NewNode(data, mints[i]))] && after.aliases == map[]
    requires after.sprint == before.sprint
    ensures Mirrored(listing.descs, items, index, mints, i + 1, after)
  {
    hide Plan, Renaming, Rebuilt, Carries, Complete, NewNode, SameAnswers, Apart, NamedRows, Joined, IdentityAmong,
        Answers;
    var desc, rho := listing.descs[items[i].typ], Renaming(items, mints);
    var sprint := before.sprint;
    CacheMirrored(listing, nodeIndex, index, items, n, mints, i, before, cache);
    NamedFields(listing, nodeIndex, index, items, n, i);
    IdentityCarried(listing, nodeIndex, index, items, n, i, rho, data, mints[i]);
    NewRowRebuilt(desc, items[i].node, index, rho, data, mints[i]);
    assert after.cache == cache[KeyOf(sprint, IdentityAt(listing.descs, items[i])) := mints[i].id];
    AnswersOneMore(listing, nodeIndex, index, items, n, mints, i, before, cache, after);
    forall key | key in after.cache && key.typ in listing.descs
      ensures IdentityAmong(listing.descs, items, i + 1, sprint, key)
    {
      AmongOneMore(listing.descs, items, i, sprint, key);
    }
  }

  lemma {:induction false} AmongOneMore(descs: map<TypeName, Descriptor>, items: seq<Item>, i: nat,
          sprint: Value -> string, key: CacheKey)
    requires i < |items| && items[i].typ in descs
    ensures IdentityAmong(descs, items, i, sprint, key) || KeyOf(sprint, IdentityAt(descs, items[i])) == key ==>
      IdentityAmong(descs, items, i + 1, sprint, key)
  {
  }

  /** The new row's cache entry is nobody else's, since the key tells their identities apart. */
  lemma {:induction false} AnswersOneMore(listing: Listing, nodeIndex: NodeIndex, index: RefIndex, items: seq<Item>,
          n: nat, mints: seq<Mint>, i: nat, before: Known, cache: map<CacheKey, Text>, after: Known)
    requires Plan(listing, nodeIndex, index, items, n) && i < n <= |items| == |mints| && items[i].typ in listing.descs
    requires Answers(listing.descs, items, mints, i, before) && Apart(before.sprint, NamedRows(listing.descs, items))
    requires SameAnswers(listing.descs, NamedRows(listing.descs, items), before, before.(cache := cache))
    requires after.sprint == before.sprint
    requires after.cache == cache[KeyOf(before.sprint, IdentityAt(listing.descs, items[i])) := mints[i].id]
    ensures Answers(listing.descs, items, mints, i + 1, after)
  {
    hide Plan, Joined, OnlyNamed;
    assert items[i] in items;
    forall j | 0 <= j < i
      ensures items[j].typ in listing.descs
      ensures KeyOf(after.sprint, IdentityAt(listing.descs, items[j])) in after.cache
      ensures after.cache[KeyOf(after.sprint, IdentityAt(listing.descs, items[j]))] == mints[j].id
    {
      assert items[j] in items;
      var id := IdentityAt(listing.descs, items[j]);
      assert id in NamedRows(listing.descs, items);
      assert IdentityAt(listing.descs, items[i]) in NamedRows(listing.descs, items);
      assert Answer(listing.descs, before, id.typ, id.parts) ==
          Answer(listing.descs, before.(cache := cache), id.typ, id.parts);
      if id == IdentityAt(listing.descs, items[i]) {
        DistinctItems(listing, nodeIndex, index, items, n);
        SameIdentity(listing, nodeIndex, index, items, n, i, j);
      }
    }
  }

  // ---- A row that comes before its target ----

  lemma {:induction false} ElemFails(descs: map<TypeName, Descriptor>, known: Known, elems: seq<Value>, k: nat)
    requires k < |elems| && ResolveElem(descs, known, elems[k]).Err?
    ensures ResolveElems(descs, known, elems).Err?
  {
    if k < |elems| - 1 {
      ElemFails(descs, known, elems[..|elems| - 1], k);
    }
  }

  lemma {:induction false} IdsInFrom(elems: seq<Value>, id: Text) returns (k: nat)
    requires id in IdsIn(elems)
    ensures k < |elems| && elems[k] == Str(id)
  {
    var last := elems[|elems| - 1];
    if last == Str(id) && id != EMPTY {
      k := |elems| - 1;
    } else {
      k := IdsInFrom(elems[..|elems| - 1], id);
    }
  }

  lemma {:induction false} UnmadeFails(listing: Listing, nodeIndex: NodeIndex, index: RefIndex, items: seq<Item>,
          n: nat, mints: seq<Mint>, known: Known, w: Key)
    requires Plan(listing, nodeIndex, index, items, n) && n < |items| == |mints|
    requires Mirrored(listing.descs, items, index, mints, n, known)
    requires w.typ in index && w.id in index[w.typ] && w !in KeysOf(items)[..n]
    ensures ResolveElem(listing.descs, known, RefTo(index[w.typ][w.id])).Err?
  {
    hide Plan, Mirrored, Payload, IdentityOf, Answer;
    var node := IndexedRowOf(listing, nodeIndex, index, items, n, w.typ, w.id);
    var desc := listing.descs[w.typ];
    PayloadIdentity(w.typ, desc, node);
    var id := Identity(w.typ, Parts(desc.identityFields, node));
    if Answer(listing.descs, known, id.typ, id.parts).Ok? {
      AnsweredIsAmong(listing, nodeIndex, index, items, n, mints, n, known, id);
      MirroredApart(listing.descs, items, index, mints, n, known);
      AmongIsScheduled(listing, nodeIndex, index, items, n, known.sprint, w.typ, node);
    }
  }

  lemma {:induction false} MirroredApart(descs: map<TypeName, Descriptor>, items: seq<Item>, index: RefIndex,
          mints: seq<Mint>, i: nat, known: Known)
    requires i <= |items| == |mints| && Mirrored(descs, items, index, mints, i, known)
    ensures Apart(known.sprint, NamedRows(descs, items))
  {
  }

  /** A listed row is one of the items. */
  lemma {:induction false} RowIsNamed(listing: Listing, items: seq<Item>, t: TypeName, node: Node)
    requires listing.Valid() && Lists(listing, items)
    requires t in listing.descs && t in listing.nodes && node in listing.nodes[t]
    ensures IdentityAt(listing.descs, Item(t, node)) in NamedRows(listing.descs, items)
  {
    assert Key(t, IdOf(node)) in listing.Keys();
    assert Key(t, IdOf(node)) in KeysOf(items);
    var j :| 0 <= j < |items| && KeysOf(items)[j] == Key(t, IdOf(node));
    assert items[j] in items;
    SameRow(listing.nodes[t], node, items[j].node);
    assert items[j] == Item(t, node);
  }

  lemma {:induction false} AmongIsScheduled(listing: Listing, nodeIndex: NodeIndex, index: RefIndex, items: seq<Item>,
          n: nat, sprint: Value -> string, t: TypeName, node: Node)
    requires Plan(listing, nodeIndex, index, items, n) && n <= |items| && Apart(sprint, NamedRows(listing.descs, items))
    requires t in listing.descs && t in listing.nodes && node in listing.nodes[t]
    requires IdentityAmong(listing.descs, items, n, sprint, KeyOf(sprint, IdentityAt(listing.descs, Item(t, node))))
    ensures Key(t, IdOf(node)) in KeysOf(items)[..n]
  {
    hide Joined, IsReferenceIndex, Indexes, TargetsFirst, RowGraph, Lists, Nameable;
    var id := IdentityAt(listing.descs, Item(t, node));
    var j :| 0 <= j < n && items[j].typ in listing.descs
        && KeyOf(sprint, IdentityAt(listing.descs, items[j])) == KeyOf(sprint, id);
    assert items[j] in items;
    ListingIsValid(listing);
    RowIsNamed(listing, items, t, node);
    assert IdentityAt(listing.descs, items[j]) == id;
    SameIdentityRow(listing, nodeIndex, index, items, n, j, t, node);
    assert KeysOf(items)[..n][j] == items[j].Key();
  }

  lemma {:induction false} ListingIsValid(listing: Listing)
    requires Nameable(listing)
    ensures listing.Valid()
  {
  }

  lemma {:induction false} SameIdentityRow(listing: Listing, nodeIndex: NodeIndex, index: RefIndex, items: seq<Item>,
          n: nat, j: nat, t: TypeName, node: Node)
    requires Plan(listing, nodeIndex, index, items, n) && j < n <= |items| && t in listing.descs
        && t in listing.nodes && node in listing.nodes[t]
    requires items[j].typ == t
    requires Parts(listing.descs[t].identityFields, items[j].node) == Parts(listing.descs[t].identityFields, node)
    ensures items[j].Key() == Key(t, IdOf(node))
  {
    hide Plan, Complete, Parts;
    ScheduledRow(listing, nodeIndex, index, items, n, j);
  }

  /** A written $ref names the identity of a listed row. */
  lemma {:induction false} PayloadNamed(listing: Listing, nodeIndex: NodeIndex, index: RefIndex, items: seq<Item>,
          n: nat, t: TypeName, id: Text)
    requires Plan(listing, nodeIndex, index, items, n) && t in index && id in index[t]
    ensures ElemNamed(listing.descs, NamedRows(listing.descs, items), RefTo(index[t][id]))
  {
    hide Indexes, TargetsFirst, RowGraph, Nameable, Lists, IsReferenceIndex, NamedRows, Payload, IdentityOf;
    var node := IndexedRowOf(listing, nodeIndex, index, items, n, t, id);
    PayloadIdentity(t, listing.descs[t], node);
    ListingIsValid(listing);
    RowIsNamed(listing, items, t, node);
  }

  /** Every $ref in a line names the identity of a listed row. */
  lemma {:induction false} LineNamed(listing: Listing, nodeIndex: NodeIndex, index: RefIndex, items: seq<Item>, n: nat,
          i: nat, line: Node)
    requires Plan(listing, nodeIndex, index, items, n) && i < |items| && items[i].typ in listing.descs
    requires Exporting.Portable(items[i].typ, listing.descs[items[i].typ], items[i].node, index, line)
    ensures DataNamed(listing.descs, NamedRows(listing.descs, items), line - {Typename})
  {
    hide Plan, ElemNamed, RefTo, RewriteOf;
    var desc, node, named := listing.descs[items[i].typ], items[i].node, NamedRows(listing.descs, items);
    assert desc.references[..|desc.references|] == desc.references;
    forall f | f in line - {Typename}
      ensures ValueNamed(listing.descs, named, line[f])
    {
      if Plain(desc, node, f) {
        NoFalseRef(listing, nodeIndex, index, items, n, i, f);
        PlainNamed(listing.descs, named, line[f]);
      } else {
        var h :| 0 <= h < |desc.references| && desc.references[h].field == f;
        ReferenceNamed(listing, nodeIndex, index, items, n, desc.references[h].target, At(node, f));
      }
    }
  }

  lemma {:induction false} PlainNamed(descs: map<TypeName, Descriptor>, named: set<Identity>, v: Value)
    requires !CarriesRef(v)
    ensures ValueNamed(descs, named, v)
  {
  }

  lemma {:induction false} ReferenceNamed(listing: Listing, nodeIndex: NodeIndex, index: RefIndex, items: seq<Item>,
          n: nat, t: TypeName, v: Value)
    requires Plan(listing, nodeIndex, index, items, n) && RewriteOf(index, t, v).Written?
    ensures ValueNamed(listing.descs, NamedRows(listing.descs, items), RewriteOf(index, t, v).value)
  {
    hide Plan, RefNamed;
    match v
    case Str(text) =>
      PayloadNamed(listing, nodeIndex, index, items, n, t, text);
    case List(elems) =>
      RewriteElemsAt(elems, index[t]);
      var out := RewriteElems(elems, index[t]).value;
      forall elem | elem in out
        ensures ElemNamed(listing.descs, NamedRows(listing.descs, items), elem)
      {
        var k :| 0 <= k < |out| && out[k] == elem;
        PayloadNamed(listing, nodeIndex, index, items, n, t, elems[k].text);
      }
  }

  /** The line of a row that comes before one of its targets does not resolve. */
  lemma {:induction false} ForwardFails(listing: Listing, nodeIndex: NodeIndex, index: RefIndex, items: seq<Item>,
          n: nat, mints: seq<Mint>, known: Known, line: Node, w: Key, data: Node)
    requires Plan(listing, nodeIndex, index, items, n) && n < |items| == |mints|
    requires Mirrored(listing.descs, items, index, mints, n, known) && items[n].typ in listing.descs
    requires Exporting.Portable(items[n].typ, listing.descs[items[n].typ], items[n].node, index, line)
    requires AllResolved(listing.descs[items[n].typ], items[n].node, index)
    requires Edge(RowGraph(listing, nodeIndex), items[n].Key(), w) && w !in KeysOf(items)[..n]
    ensures !Resolves(listing.descs, known, line - {Typename}, data)
  {
    hide Plan, Mirrored, RowGraph, Payload;
    var desc, node := listing.descs[items[n].typ], items[n].node;
    var h := EdgeReference(listing, nodeIndex, index, items, n, w);
    var r := desc.references[h];
    assert r in desc.references;
    UnmadeFails(listing, nodeIndex, index, items, n, mints, known, w);
    match At(node, r.field)
    case Str(text) =>
      assert line[r.field] == RefTo(index[w.typ][w.id]);
      assert r.field in line - {Typename};
    case List(elems) =>
      var k := IdsInFrom(elems, w.id);
      RewriteElemsAt(elems, index[w.typ]);
      ElemFails(listing.descs, known, RewriteElems(elems, index[w.typ]).value, k);
      assert r.field in line - {Typename};
  }

  lemma {:induction false} EdgeReference(listing: Listing, nodeIndex: NodeIndex, index: RefIndex, items: seq<Item>,
          n: nat, w: Key) returns (h: nat)
    requires Plan(listing, nodeIndex, index, items, n) && n < |items| && items[n].typ in listing.descs
    requires Edge(RowGraph(listing, nodeIndex), items[n].Key(), w)
    ensures h < |listing.descs[items[n].typ].references|
        && Names(items[n].node, listing.descs[items[n].typ].references[h], w)
    ensures w.typ in index && w.id in index[w.typ] && listing.descs[items[n].typ].references[h].field.Named?
  {
    hide RowGraph, TargetsFirst, Acyclic, KeysOf, IsReferenceIndex, ReferencedIds, Indexes;
    var item := items[n];
    assert item in items;
    var refs := listing.descs[item.typ].references;
    EdgesAreTargets(listing, nodeIndex, item.typ, item.node);
    var ref :| ref in refs && Names(item.node, ref, w);
    h :| 0 <= h < |refs| && refs[h] == ref;
    KeyedTarget(listing, nodeIndex, index, w);
  }

  lemma {:induction false} KeyedTarget(listing: Listing, nodeIndex: NodeIndex, index: RefIndex, w: Key)
    requires Nameable(listing) && Indexes(nodeIndex, listing) && IsReferenceIndex(index, listing)
    requires w.typ in nodeIndex && w.id in nodeIndex[w.typ]
    ensures w.typ in index && w.id in index[w.typ]
  {
    hide Indexes, Complete, Payload;
    IndexedRow(listing, nodeIndex, w);
  }

  /** The longest prefix of an order with every target first. */
  lemma {:induction false} SafePrefix<K(!new)>(g: map<K, set<K>>, order: seq<K>) returns (n: nat)
    ensures n <= |order| && TargetsFirst(g, order[..n])
    ensures n < |order| ==> exists w :: Edge(g, order[n], w) && w !in order[..n]
    ensures TargetsFirst(g, order) <==> n == |order|
  {
    n := 0;
    while n < |order| && forall w :: Edge(g, order[n], w) ==> w in order[..n]
      invariant n <= |order| && TargetsFirst(g, order[..n])
    {
      var longer := order[..n + 1];
      forall j, w | 0 <= j < |longer| && Edge(g, longer[j], w)
        ensures w in longer[..j]
      {
        assert longer[..j] == order[..j];
        assert j < n ==> order[..n][..j] == order[..j];
      }
      n := n + 1;
    }
    assert order[..|order|] == order;
  }

  // ---- The loop ----

  /** How often a record ended this way. */
  function Times(outcomes: seq<Outcome>, p: Outcome -> bool): nat {
    if outcomes == [] then 0
    else Times(outcomes[..|outcomes| - 1], p) + if p(outcomes[|outcomes| - 1]) then 1 else 0
  }

  const CREATES := (o: Outcome) => o.Created?
  const UPDATES := (o: Outcome) => o.Updated?
  const SKIPS := (o: Outcome) => o.Skipped?
  const FAILS := (o: Outcome) => o.Failed?

  /** The result counts the records that were processed by how they ended. */
  ghost predicate Counts(result: ImportResult, outcomes: seq<Outcome>) {
    && result.created == Times(outcomes, CREATES) && result.updated == Times(outcomes, UPDATES)
    && result.skipped == Times(outcomes, SKIPS) && result.errors == Times(outcomes, FAILS)
  }

  lemma {:induction false} CountsOneMore(result: ImportResult, outcomes: seq<Outcome>, o: Outcome)
    requires Counts(result, outcomes)
    ensures Counts(match o
                   case Created => result.(created := result.created + 1)
                   case Updated => result.(updated := result.updated + 1)
                   case Skipped => result.(skipped := result.skipped + 1)
                   case Planned => result
                   case Failed(_) => result.(errors := result.errors + 1), outcomes + [o])
  {
    assert (outcomes + [o])[..|outcomes|] == outcomes;
  }

  lemma {:induction false} NothingCounted()
    ensures Counts(ImportResult(0, 0, 0, 0), [])
  {
  }

  /** ImportFiles over one stream, stopping at the first failure unless told to go on. */
  method ImportStream(importer: Importer, lines: seq<Node>, mints: seq<Mint>, ghost listing: Listing,
          ghost nodeIndex: NodeIndex, ghost index: RefIndex, ghost items: seq<Item>)
    returns (result: ImportResult, ghost outcomes: seq<Outcome>)
    requires |lines| == |mints| && forall i :: 0 <= i < |lines| ==> Typename in lines[i] && lines[i][Typename].Str?
    modifies importer`cache, importer`aliases, importer`store, importer`failing
    ensures FreshImport(listing, nodeIndex, index, items, lines, mints, importer.descs, importer.dryRun,
        old(importer.State())) ==>
      && (result.errors == 0 <==> TargetsFirst(RowGraph(listing, nodeIndex), KeysOf(items)))
      && (result.errors == 0 ==> result == ImportResult(|lines|, 0, 0, 0) && AllRebuilt(listing.descs, items, index,
          mints, importer.store, |items|))
    ensures !importer.continueOnError ==> result.errors <= 1
    ensures result.errors == 0 && !importer.dryRun ==> result.created + result.updated + result.skipped == |lines|
    // It counts what became of every record, up to the first failure unless told to go on.
    ensures Counts(result, outcomes) && |outcomes| <= |lines|
    ensures importer.continueOnError || result.errors == 0 ==> |outcomes| == |lines|
    ensures !importer.continueOnError ==> forall i :: 0 <= i < |outcomes| - 1 ==> !outcomes[i].Failed?
  {
    hide Plan, AllRebuilt, Mirrored, MadeRow, Prefix, FreshImport, Resolves, ResolveValue, Decide, RowGraph,
        TargetsFirst, Apart, DataNamed, NamedRows, Counts;
    result, outcomes := ImportResult(0, 0, 0, 0), [];
    NothingCounted();
    ghost var known0 := importer.State();
    ghost var empty := FreshImport(listing, nodeIndex, index, items, lines, mints, importer.descs, importer.dryRun,
        known0);
    ghost var n := 0;
    if empty {
      n := ImportStarts(listing, nodeIndex, index, items, lines, mints, importer.descs, importer.dryRun, known0);
    }
    for i := 0 to |lines|
      invariant empty ==> |items| == |lines| && Prefix(listing, nodeIndex, index, items, lines, mints, n)
      invariant empty && result.errors == 0 ==>
        i <= n && result == ImportResult(i, 0, 0, 0)
            && Mirrored(listing.descs, items, index, mints, i, importer.State())
      invariant empty && result.errors > 0 ==> n < |items|
      invariant !importer.continueOnError ==> result.errors == 0
      invariant Counts(result, outcomes) && |outcomes| == i
      invariant !importer.continueOnError ==> forall k :: 0 <= k < i ==> !outcomes[k].Failed?
      invariant result.errors == 0 && !importer.dryRun ==> result.created + result.updated + result.skipped == i
    {
      SameMirror(listing.descs, items, index, mints, i, importer.State(), mints[i].failing);
      importer.failing := mints[i].failing;
      ghost var before := importer.State();
      var outcome;
      ghost var data, resolves, id;
      outcome, data, resolves, id :=
        importer.ProcessRecord(Parsed(lines[i]), mints[i], NamedRows(listing.descs, items));
      if empty && result.errors == 0 {
        NextRecord(listing, nodeIndex, index, items, n, lines, mints, importer, i, before, importer.State(), outcome,
            data, resolves);
      }
      CountsOneMore(result, outcomes, outcome);
      outcomes := outcomes + [outcome];
      match outcome {
        case Created => result := result.(created := result.created + 1);
        case Updated => result := result.(updated := result.updated + 1);
        case Skipped => result := result.(skipped := result.skipped + 1);
        case Planned =>
        case Failed(_) =>
          result := result.(errors := result.errors + 1);
          if !importer.continueOnError {
            break;
          }
      }
    }
    if empty {
      ImportEnds(listing, nodeIndex, index, items, lines, mints, n, importer.State(), result);
    }
  }

  /** What is cached and made does not depend on which queries fail. */
  lemma {:induction false} SameMirror(descs: map<TypeName, Descriptor>, items: seq<Item>, index: RefIndex,
          mints: seq<Mint>, i: nat, known: Known, failing: Identity -> bool)
    ensures i <= |items| == |mints| && Mirrored(descs, items, index, mints, i, known) ==>
      Mirrored(descs, items, index, mints, i, known.(failing := failing))
  {
    hide Rebuilt, Joined;
  }

  /** The lines are an export of the listing with no reference left out, and the server starts
      empty and says yes. */
  ghost predicate FreshImport(listing: Listing, nodeIndex: NodeIndex, index: RefIndex, items: seq<Item>,
          lines: seq<Node>, mints: seq<Mint>, descs: map<TypeName, Descriptor>, dryRun: bool, known: Known)
  {
    && Plan(listing, nodeIndex, index, items, 0) && Exported(listing, items, index, lines)
    && AllRowsResolved(listing, items, index, false)
    && descs == listing.descs && !dryRun && |items| == |mints| && Willing(mints)
    && known == Known(map[], map[], [], known.sprint, known.failing) && Apart(known.sprint, NamedRows(descs, items))
  }

  /** n is how far the order goes before some row precedes its target. */
  ghost predicate Prefix(listing: Listing, nodeIndex: NodeIndex, index: RefIndex, items: seq<Item>, lines: seq<Node>,
          mints: seq<Mint>, n: nat) {
    && Plan(listing, nodeIndex, index, items, n) && Exported(listing, items, index, lines)
    && AllRowsResolved(listing, items, index, false) && |items| == |mints| && Willing(mints) && n <= |items|
    && (n < |items| ==> exists w :: Edge(RowGraph(listing, nodeIndex), items[n].Key(), w) && w !in KeysOf(items)[..n])
    && (TargetsFirst(RowGraph(listing, nodeIndex), KeysOf(items)) <==> n == |items|)
  }

  lemma {:induction false} ImportStarts(listing: Listing, nodeIndex: NodeIndex, index: RefIndex, items: seq<Item>,
          lines: seq<Node>, mints: seq<Mint>, descs: map<TypeName, Descriptor>, dryRun: bool, known: Known)
    returns (n: nat)
    requires FreshImport(listing, nodeIndex, index, items, lines, mints, descs, dryRun, known)
    ensures Prefix(listing, nodeIndex, index, items, lines, mints, n) && |items| == |lines|
    ensures Mirrored(listing.descs, items, index, mints, 0, known) && descs == listing.descs && !dryRun
  {
    hide RowGraph, Nameable, IsReferenceIndex, TargetsFirst, Acyclic, AllRowsResolved, Willing, Exporting.Portable,
        Indexes;
    n := SafePrefix(RowGraph(listing, nodeIndex), KeysOf(items));
  }

  /** Record i succeeds when everything it names is there, and fails when something is not. */
  lemma {:induction false} NextRecord(listing: Listing, nodeIndex: NodeIndex, index: RefIndex, items: seq<Item>, n: nat,
          lines: seq<Node>, mints: seq<Mint>, importer: Importer, i: nat, before: Known, after: Known, outcome: Outcome,
          data: Node, resolves: bool)
    requires Prefix(listing, nodeIndex, index, items, lines, mints, n) && i <= n && i < |items| == |lines|
    requires importer.descs == listing.descs && !importer.dryRun && importer.sprint == before.sprint
    requires before.failing == mints[i].failing
    requires Mirrored(listing.descs, items, index, mints, i, before) && Typename in lines[i] && lines[i][Typename].Str?
    requires var told := importer.Told(Parsed(lines[i]).data, NamedRows(listing.descs, items));
      && (told && Parsed(lines[i]).typ in listing.descs ==>
            && (resolves <==> Resolves(listing.descs, before, Parsed(lines[i]).data, data))
            && (resolves <==> AllResolve(listing.descs, before, Parsed(lines[i]).data)))
      && (told && outcome == Outcome.Created ==>
            MadeRow(listing.descs, NamedRows(listing.descs, items), Parsed(lines[i]), mints[i], before, after, data))
    requires resolves && importer.MustCreate(Parsed(lines[i]), mints[i], before, data) ==> outcome == Outcome.Created
    requires !outcome.Failed? ==> resolves
    ensures i < n ==> outcome == Outcome.Created && Mirrored(listing.descs, items, index, mints, i + 1, after)
    ensures i == n ==> outcome.Failed?
  {
    hide Plan, Answers, OnlyKnown, AllRebuilt, Carries, Resolves, ResolveValue, Renaming, Decide, MadeRow, RowGraph,
        Edge, AllResolved, Apart, DataNamed, NamedRows;
    LineNamed(listing, nodeIndex, index, items, n, i, lines[i]);
    if i < n {
      LineResolves(listing, nodeIndex, index, items, n, mints, i, before, lines[i]);
      NothingExists(listing, nodeIndex, index, items, n, mints, i, before.store, data);
      MirrorStep(listing, nodeIndex, index, items, n, mints, i, Parsed(lines[i]), before, after, data);
    } else if !outcome.Failed? {
      var w :| Edge(RowGraph(listing, nodeIndex), items[n].Key(), w) && w !in KeysOf(items)[..n];
      ForwardFails(listing, nodeIndex, index, items, n, mints, before, lines[i], w, data);
    }
  }

  lemma {:induction false} ImportEnds(listing: Listing, nodeIndex: NodeIndex, index: RefIndex, items: seq<Item>,
          lines: seq<Node>, mints: seq<Mint>, n: nat, known: Known, result: ImportResult)
    requires Prefix(listing, nodeIndex, index, items, lines, mints, n) && |items| == |lines|
    requires result.errors == 0 ==>
        |lines| <= n && result == ImportResult(|lines|, 0, 0, 0)
        && Mirrored(listing.descs, items, index, mints, |lines|, known)
    requires result.errors > 0 ==> n < |items|
    ensures result.errors == 0 <==> TargetsFirst(RowGraph(listing, nodeIndex), KeysOf(items))
    ensures result.errors == 0 ==> AllRebuilt(listing.descs, items, index, mints, known.store, |items|)
  {
  }

  /** Migrating a portable listing to an empty server: nothing fails exactly when the rows are
      acyclic, and then the server ends with one copy of every row, references included, under the
      new ids. */
  method Migrate(listing: Listing, names: seq<TypeName>, sorted: map<TypeName, seq<Node>>, target: Importer,
          mints: seq<Mint>)
    returns (failed: nat, result: ImportResult, items: seq<Item>, index: RefIndex, ghost nodeIndex: NodeIndex)
    requires Nameable(listing) && SortsRows(sorted, listing) && forall t :: t in names <==> t in sorted
    requires |mints| == |listing.Keys()| && Willing(mints)
    requires target.descs == listing.descs && !target.dryRun
    requires target.State() == Known(map[], map[], [], target.sprint, target.failing)
    requires Apart(target.sprint, Identities(listing))
    modifies target`cache, target`aliases, target`store, target`failing
    ensures Indexes(nodeIndex, listing) && IsReferenceIndex(index, listing)
    ensures |items| == |mints| && forall k :: k in KeysOf(items) <==> k in listing.Keys()
    // A dangling reference stops the export; nothing reaches the server.
    ensures failed == 0 <==> AllRowsResolved(listing, items, index, false)
    ensures failed > 0 ==> target.State() == old(target.State())
    ensures failed == 0 ==> (result.errors == 0 <==> Acyclic(RowGraph(listing, nodeIndex)))
    ensures failed == 0 && result.errors == 0 ==>
      result == ImportResult(|items|, 0, 0, 0) && AllRebuilt(listing.descs, items, index, mints, target.store, |items|)
  {
    hide IsReferenceIndex, Indexes, RowGraph, KeysOf, Exporting.Portable, AllRowsResolved, Willing, SortsRows,
        TargetsFirst, Acyclic, Distinct, Apart, NamedRows, Identities;
    var lines;
    items, index, lines, failed, nodeIndex := Export(listing, names, sorted, false);
    result := ImportResult(0, 0, 0, 0);
    AsManyItems(listing, nodeIndex, items);
    PlanOf(listing, nodeIndex, index, items);
    NamedApart(listing, items, target.sprint);
    if failed == 0 {
      LinesHaveTypes(listing, items, index, lines);
      ghost var outcomes;
      result, outcomes := ImportStream(target, lines, mints, listing, nodeIndex, index, items);
    }
  }

  lemma {:induction false} PlanOf(listing: Listing, nodeIndex: NodeIndex, index: RefIndex, items: seq<Item>)
    requires Nameable(listing) && Indexes(nodeIndex, listing) && IsReferenceIndex(index, listing)
        && Lists(listing, items)
    ensures Plan(listing, nodeIndex, index, items, 0)
  {
  }

  lemma {:induction false} LinesHaveTypes(listing: Listing, items: seq<Item>, index: RefIndex, lines: seq<Node>)
    requires Exported(listing, items, index, lines)
    ensures forall i :: 0 <= i < |lines| ==> Typename in lines[i] && lines[i][Typename].Str?
  {
  }

  lemma {:induction false} AsManyItems(listing: Listing, nodeIndex: NodeIndex, items: seq<Item>)
    requires listing.Valid() && Indexes(nodeIndex, listing) && Lists(listing, items)
    ensures |items| == |listing.Keys()|
  {
    var keys := KeysOf(items);
    DistinctCount(keys);
    assert (set k | k in keys) == listing.Keys();
  }

  lemma {:induction false} DistinctCount<T>(s: seq<T>)
    requires Distinct(s)
    ensures |set x | x in s| == |s|
  {
    if s != [] {
      var init, last := s[..|s| - 1], s[|s| - 1];
      DistinctCount(init);
      assert (set x | x in s) == (set x | x in init) + {last};
    }
  }
}
