/** Writing portable records (exporter.go): foreign keys become $refs that name their target by
    its identity fields, and whatever only makes sense on this server is dropped. */
module Exporting {
  import opened Wrappers
  import opened Records
  import opened Ordering
  import Graphs

  /** serverManagedFields. */
  predicate ServerManaged(f: Field) {
    f in {Id, TenantID, CreatedAt, CreatedBy, UpdatedAt, UpdatedBy, DeletedAt, DeletedBy, DataTypeSlug}
  }

  type RefIndex = map<TypeName, map<Text, Node>>

  /** The identity of src under a descriptor: absent when the descriptor has no identity fields or
      src lacks one of them. */
  function IdentityOf(desc: Descriptor, src: Node): Option<seq<Value>> {
    if desc.identityFields == [] || !Complete(desc.identityFields, src) then None
    else Some(Parts(desc.identityFields, src))
  }

  predicate Complete(fields: seq<Field>, src: Node) {
    forall f :: f in fields ==> At(src, f) != Null
  }

  function Parts(fields: seq<Field>, src: Node): seq<Value> {
    seq(|fields|, i requires 0 <= i < |fields| => At(src, fields[i]))
  }

  /** The $ref payload of a row. */
  function Payload(t: TypeName, fields: seq<Field>, node: Node): Node {
    map[Typename := Str(t)] + map f | f in fields :: At(node, f)
  }

  ghost predicate IndexesIdentities(targets: map<Text, Node>, t: TypeName, desc: Descriptor, rows: seq<Node>) {
    && (forall id :: id in targets ==>
        exists node :: node in rows && IdOf(node) == id && Complete(desc.identityFields, node)
                                                   && targets[id] == Payload(t, desc.identityFields, node))
    && (forall node :: node in rows && Complete(desc.identityFields, node) ==>
          IdOf(node) in targets && targets[IdOf(node)] == Payload(t, desc.identityFields, node))
  }

  /** Keyed types only, each with the payload of every row whose identity is complete. */
  ghost predicate IsReferenceIndex(index: RefIndex, listing: Listing) {
    && (forall t :: t in index <==> t in listing.descs && t in listing.nodes && listing.descs[t].identityFields != [])
    && (forall t :: t in index ==> IndexesIdentities(index[t], t, listing.descs[t], listing.nodes[t]))
  }

  lemma {:induction false} PayloadStarts(t: TypeName, node: Node)
    ensures Payload(t, [], node) == map[Typename := Str(t)]
  {
  }

  lemma {:induction false} PayloadMore(t: TypeName, fields: seq<Field>, f: Field, node: Node)
    requires f in node && f != Typename
    ensures Payload(t, fields + [f], node) == Payload(t, fields, node)[f := node[f]]
  {
  }

  /** The inner loop of buildReferenceIndex over identity fields. */
  method BuildPayload(t: TypeName, desc: Descriptor, node: Node) returns (complete: bool, payload: Node)
    requires Typename !in desc.identityFields
    ensures complete <==> Complete(desc.identityFields, node)
    ensures complete ==> payload == Payload(t, desc.identityFields, node)
  {
    hide Payload;
    payload := map[Typename := Str(t)];
    complete := true;
    PayloadStarts(t, node);
    for i := 0 to |desc.identityFields|
      invariant complete && Complete(desc.identityFields[..i], node)
      invariant payload == Payload(t, desc.identityFields[..i], node)
    {
      var f := desc.identityFields[i];
      if At(node, f) == Null {
        complete := false;
        return;
      }
      assert desc.identityFields[..i + 1] == desc.identityFields[..i] + [f];
      PayloadMore(t, desc.identityFields[..i], f, node);
      payload := payload[f := node[f]];
    }
    assert desc.identityFields[..|desc.identityFields|] == desc.identityFields;
  }

  method IndexIdentities(t: TypeName, desc: Descriptor, rows: seq<Node>) returns (targets: map<Text, Node>)
    requires DistinctIds(rows) && Typename !in desc.identityFields
    ensures IndexesIdentities(targets, t, desc, rows)
  {
    targets := map[];
    for i := 0 to |rows|
      invariant forall id :: id in targets ==>
          exists j :: 0 <= j < i && IdOf(rows[j]) == id && Complete(desc.identityFields, rows[j])
                                                       && targets[id] == Payload(t, desc.identityFields, rows[j])
      invariant forall j :: 0 <= j < i && Complete(desc.identityFields, rows[j]) ==>
        IdOf(rows[j]) in targets && targets[IdOf(rows[j])] == Payload(t, desc.identityFields, rows[j])
    {
      if IdOf(rows[i]) == EMPTY {
        continue;
      }
      var complete, payload := BuildPayload(t, desc, rows[i]);
      if complete {
        targets := targets[IdOf(rows[i]) := payload];
      }
    }
  }

  method BuildReferenceIndex(listing: Listing) returns (index: RefIndex)
    requires listing.Valid() && forall t :: t in listing.descs ==> Typename !in listing.descs[t].identityFields
    ensures IsReferenceIndex(index, listing)
  {
    index := map[];
    var types := listing.descs.Keys;
    while types != {}
      invariant types <= listing.descs.Keys
      invariant forall t :: t in index <==> t in listing.descs && t !in types && listing.descs[t].identityFields != []
      invariant forall t :: t in index ==> IndexesIdentities(index[t], t, listing.descs[t], listing.nodes[t])
      decreases types
    {
      var t :| t in types;
      types := types - {t};
      if |listing.descs[t].identityFields| == 0 {
        continue;
      }
      var targets := IndexIdentities(t, listing.descs[t], listing.nodes[t]);
      index := index[t := targets];
    }
  }

  // ---- One reference ----

  datatype Rewrite = Omitted | Written(value: Value) | Unresolved

  function RefTo(payload: Node): Value { Obj(map[Ref := Obj(payload)]) }

  /** Every element a known id, and then a $ref each. */
  function RewriteElems(elems: seq<Value>, targets: map<Text, Node>): Option<seq<Value>> {
    if elems == [] then Some([])
    else
      var last := elems[|elems| - 1];
      var rest := RewriteElems(elems[..|elems| - 1], targets);
      if rest.None? || !last.Str? || last.text !in targets then None
      else Some(rest.value + [RefTo(targets[last.text])])
  }

  /** What becomes of a foreign key: left out when it is empty or its type is not exported. */
  function RewriteOf(index: RefIndex, target: TypeName, v: Value): Rewrite {
    if target !in index then Omitted
    else match v
      case Str(text) =>
        if text == EMPTY then Omitted
        else if text in index[target] then Written(RefTo(index[target][text]))
        else Unresolved
      case List(elems) =>
        (match RewriteElems(elems, index[target])
         case None => Unresolved
         case Some(out) => if out == [] then Omitted else Written(List(out)))
      case _ => Omitted
  }

  lemma {:induction false} RewriteElemsAt(elems: seq<Value>, targets: map<Text, Node>)
    ensures RewriteElems(elems, targets).Some? <==>
        forall i :: 0 <= i < |elems| ==> elems[i].Str? && elems[i].text in targets
    ensures RewriteElems(elems, targets).Some? ==>
      var out := RewriteElems(elems, targets).value;
      |out| == |elems| && forall i :: 0 <= i < |elems| ==> out[i] == RefTo(targets[elems[i].text])
  {
    if elems != [] {
      RewriteElemsAt(elems[..|elems| - 1], targets);
    }
  }

  /** An id of the target type whose identity is complete. */
  predicate KnownId(index: RefIndex, target: TypeName, v: Value) {
    target in index && v.Str? && v.text in index[target]
  }

  /** { "$ref": payload }. */
  predicate IsRefTo(v: Value, payload: Node) { v.Obj? && v.fields.Keys == {Ref} && v.fields[Ref] == Obj(payload) }

  predicate RefsEach(index: RefIndex, target: TypeName, elems: seq<Value>, refs: seq<Value>) {
    |refs| == |elems| && forall i :: 0 <= i < |elems| ==>
      KnownId(index, target, elems[i]) && IsRefTo(refs[i], index[target][elems[i].text])
  }

  /** What becomes of a foreign key, outcome by outcome: it is unresolved exactly if it, or an element
      of a list, names no known row of an exported type; it is written as the $ref of its row, or as the
      list of them; and left out if it is empty, no key at all, or its type is not exported. */
  lemma {:induction false} RewriteMeans(index: RefIndex, target: TypeName, v: Value, w: Value)
    ensures target !in index ==> RewriteOf(index, target, v) == Omitted
    ensures target in index ==>
      (RewriteOf(index, target, v) == Unresolved <==>
        (v.Str? && v.text != EMPTY && !KnownId(index, target, v))
            || (v.List? && exists i :: 0 <= i < |v.elems| && !KnownId(index, target, v.elems[i])))
    ensures target in index ==>
      (RewriteOf(index, target, v) == Written(w) <==>
        (v.Str? && v.text != EMPTY && KnownId(index, target, v) && IsRefTo(w, index[target][v.text]))
            || (v.List? && v.elems != [] && w.List? && RefsEach(index, target, v.elems, w.elems)))
  {
    forall a, payload
      ensures IsRefTo(a, payload) <==> a == RefTo(payload)
    {
      if IsRefTo(a, payload) {
        assert a.fields == map[Ref := Obj(payload)];
      }
    }
    if v.List? && target in index {
      RewriteElemsAt(v.elems, index[target]);
    }
  }

  method RewriteReference(node: Node, ref: Reference, index: RefIndex) returns (r: Rewrite)
    ensures r == RewriteOf(index, ref.target, At(node, ref.field))
  {
    if ref.target !in index {
      return Omitted;
    }
    var targets := index[ref.target];
    match At(node, ref.field) {
      case Str(text) =>
        if text == EMPTY {
          return Omitted;
        }
        return if text in targets then Written(RefTo(targets[text])) else Unresolved;
      case List(elems) =>
        var out: seq<Value> := [];
        RewriteElemsAt(elems, targets);
        for i := 0 to |elems|
          invariant RewriteElems(elems[..i], targets) == Some(out)
        {
          assert elems[..i + 1][..i] == elems[..i];
          if !elems[i].Str? || elems[i].text !in targets {
            return Unresolved;
          }
          out := out + [RefTo(targets[elems[i].text])];
        }
        assert elems[..|elems|] == elems;
        return if |out| > 0 then Written(List(out)) else Omitted;
      case _ =>
        return Omitted;
    }
  }

  // ---- One record ----

  /** A descriptor's reference fields are ordinary fields and each is declared once. */
  ghost predicate ValidReferences(refs: seq<Reference>) {
    && (forall i :: 0 <= i < |refs| ==> refs[i].field.Named?)
    && (forall i, j :: 0 <= i < j < |refs| ==> refs[i].field != refs[j].field)
  }

  predicate IsReference(refs: seq<Reference>, f: Field) {
    exists i :: 0 <= i < |refs| && refs[i].field == f
  }

  predicate KeepsId(desc: Descriptor) { !desc.hasUpdate && desc.identityFields == [] }

  /** A field copied as it is. */
  predicate Plain(desc: Descriptor, node: Node, f: Field) {
    f in node && !IsReference(desc.references, f) && (if f == Id then KeepsId(desc) else !ServerManaged(f))
  }

  /** record is the portable form of node: its type, its plain fields, a $ref for every reference
      that could be written, and nothing else. */
  ghost predicate Portable(t: TypeName, desc: Descriptor, node: Node, index: RefIndex, record: Node) {
    PortableUpTo(t, desc, node, index, record, |desc.references|)
  }

  ghost predicate PortableUpTo(t: TypeName, desc: Descriptor, node: Node, index: RefIndex, record: Node, n: nat)
    requires n <= |desc.references|
  {
    && Typename in record && record[Typename] == Str(t)
    && (forall f :: Plain(desc, node, f) ==> f in record && record[f] == node[f])
    && (forall i :: 0 <= i < n ==>
          match RewriteOf(index, desc.references[i].target, At(node, desc.references[i].field))
          case Written(v) => desc.references[i].field in record && record[desc.references[i].field] == v
          case _ => desc.references[i].field !in record)
    && (forall f :: f in record ==> f == Typename || Plain(desc, node, f) || IsReference(desc.references[..n], f))
  }

  /** So an exported record never carries the server's own fields, and an id only where it is the
      identity; and it carries every other plain field. */
  lemma {:induction false} PortableFields(t: TypeName, desc: Descriptor, node: Node, index: RefIndex, record: Node,
          name: int)
    requires Portable(t, desc, node, index, record) && ValidReferences(desc.references) && Typename !in node
    ensures TenantID !in record && CreatedAt !in record && CreatedBy !in record && UpdatedAt !in record
    ensures UpdatedBy !in record && DeletedAt !in record && DeletedBy !in record && DataTypeSlug !in record
    ensures Id in record <==> Id in node && !desc.hasUpdate && desc.identityFields == []
    ensures Named(name) in node && (forall r :: r in desc.references ==> r.field != Named(name)) ==>
      Named(name) in record && record[Named(name)] == node[Named(name)]
    ensures Named(name) in record ==> Named(name) in node || exists r :: r in desc.references && r.field == Named(name)
  {
    hide IsReference, RewriteOf;
    assert desc.references[..|desc.references|] == desc.references;
    forall f
      ensures IsReference(desc.references, f) <==> exists r :: r in desc.references && r.field == f
    {
      ReferenceIsDeclared(desc.references, f);
    }
  }

  lemma {:induction false} ReferenceIsDeclared(refs: seq<Reference>, f: Field)
    ensures IsReference(refs, f) <==> exists r :: r in refs && r.field == f
  {
    if r :| r in refs && r.field == f {
      var i :| 0 <= i < |refs| && refs[i] == r;
    }
  }

  ghost predicate AllResolved(desc: Descriptor, node: Node, index: RefIndex) {
    forall r :: r in desc.references ==> RewriteOf(index, r.target, At(node, r.field)) != Unresolved
  }

  /** prepareRecord; with skip, unresolved references are left out instead of failing the row. */
  method PrepareRecord(t: TypeName, desc: Descriptor, node: Node, index: RefIndex, skip: bool)
    returns (record: Node, unresolved: seq<Reference>)
    requires ValidReferences(desc.references) && Typename !in node
    ensures unresolved == [] <==> skip || AllResolved(desc, node, index)
    ensures Portable(t, desc, node, index, record)
  {
    record := map[Typename := Str(t)];
    unresolved := [];
    var fields := node.Keys;
    while fields != {}
      invariant fields <= node.Keys
      invariant Typename in record && record[Typename] == Str(t)
      invariant forall f :: Plain(desc, node, f) && f !in fields ==> f in record && record[f] == node[f]
      invariant forall f :: f in record ==> f == Typename || Plain(desc, node, f)
      decreases fields
    {
      var f :| f in fields;
      fields := fields - {f};
      if IsReference(desc.references, f) || (f != Id && ServerManaged(f)) || (f == Id && !KeepsId(desc)) {
        continue;
      }
      record := record[f := node[f]];
    }
    for i := 0 to |desc.references|
      invariant PortableUpTo(t, desc, node, index, record, i)
      invariant unresolved == [] <==>
        skip || forall j :: 0 <= j < i ==>
            RewriteOf(index, desc.references[j].target, At(node, desc.references[j].field)) != Unresolved
    {
      var ref := desc.references[i];
      assert desc.references[..i + 1] == desc.references[..i] + [ref];
      var r := RewriteReference(node, ref, index);
      ghost var before := record;
      if r.Written? {
        record := record[ref.field := r.value];
      }
      if r == Unresolved && !skip {
        unresolved := unresolved + [ref];
      }
      ReferenceAdded(t, desc, node, index, before, record, i);
    }
  }

  lemma {:induction false} ReferenceAdded(t: TypeName, desc: Descriptor, node: Node, index: RefIndex, before: Node,
          record: Node, i: nat)
    requires i < |desc.references| && ValidReferences(desc.references)
    requires PortableUpTo(t, desc, node, index, before, i)
    requires match RewriteOf(index, desc.references[i].target, At(node, desc.references[i].field))
             case Written(v) => record == before[desc.references[i].field := v]
             case _ => record == before
    ensures PortableUpTo(t, desc, node, index, record, i + 1)
  {
    hide Plain, IsReference, RewriteOf;
    var refs := desc.references;
    NewReference(desc, node, i);
    forall f | f in record
      ensures f == Typename || Plain(desc, node, f) || IsReference(refs[..i + 1], f)
    {
      OneMoreReference(refs, i, f);
    }
  }

  lemma {:induction false} NewReference(desc: Descriptor, node: Node, i: nat)
    requires i < |desc.references| && ValidReferences(desc.references)
    ensures !Plain(desc, node, desc.references[i].field)
    ensures !IsReference(desc.references[..i], desc.references[i].field)
  {
  }

  lemma {:induction false} OneMoreReference(refs: seq<Reference>, i: nat, f: Field)
    requires i < |refs|
    ensures f == refs[i].field || IsReference(refs[..i], f) ==> IsReference(refs[..i + 1], f)
  {
    if f == refs[i].field {
      assert refs[..i + 1][i].field == f;
    } else if IsReference(refs[..i], f) {
      var j :| 0 <= j < i && refs[..i][j].field == f;
      assert refs[..i + 1][j].field == f;
    }
  }

  // ---- The whole stream ----

  /** Descriptors as the registry holds them. */
  ghost predicate ValidDescriptors(descs: map<TypeName, Descriptor>) {
    forall t :: t in descs ==>
      && ValidReferences(descs[t].references)
      && (forall f :: f in descs[t].identityFields ==> f.Named? && !IsReference(descs[t].references, f))
  }

  /** Rows never carry __typename: GraphQL lists only the selected fields. */
  ghost predicate NoTypename(listing: Listing) {
    forall t, node :: t in listing.nodes && node in listing.nodes[t] ==> Typename !in node
  }

  /** plan: the reference index and the rows in dependency order. */
  method Plan(listing: Listing, names: seq<TypeName>, sorted: map<TypeName, seq<Node>>)
    returns (items: seq<Item>, index: RefIndex, ghost nodeIndex: NodeIndex)
    requires listing.Valid() && ValidDescriptors(listing.descs)
    requires SortsRows(sorted, listing) && forall t :: t in names <==> t in sorted
    ensures Indexes(nodeIndex, listing) && IsReferenceIndex(index, listing)
    ensures Scheduled(listing, nodeIndex, items)
  {
    hide IsReferenceIndex, RowWalk, SortsRows, Indexes, RowGraph, KeysOf, Graphs.Distinct, Graphs.Acyclic,
        Graphs.TargetsFirst;
    var byId := BuildNodeIndex(listing);
    nodeIndex := byId;
    index := BuildReferenceIndex(listing);
    var sorter := new RowSorter(listing, byId);
    WalkStarts(listing, sorter.Graph());
    var types := sorter.OrderForExport(names, sorted);
    items := sorter.items;
  }

  /** Export: every scheduled row that can be written, in order, and how many cannot. */
  method Export(listing: Listing, names: seq<TypeName>, sorted: map<TypeName, seq<Node>>, skip: bool)
    returns (items: seq<Item>, index: RefIndex, records: seq<Node>, failed: nat, ghost nodeIndex: NodeIndex)
    requires listing.Valid() && ValidDescriptors(listing.descs) && NoTypename(listing)
    requires SortsRows(sorted, listing) && forall t :: t in names <==> t in sorted
    ensures Indexes(nodeIndex, listing) && IsReferenceIndex(index, listing)
    ensures Scheduled(listing, nodeIndex, items)
    ensures |records| == |items| - failed
    ensures failed == 0 <==> AllRowsResolved(listing, items, index, skip)
    ensures failed == 0 ==> Exported(listing, items, index, records)
  {
    hide *;
    items, index, nodeIndex := Plan(listing, names, sorted);
    ScheduledRows(listing, nodeIndex, items);
    records, failed := PrepareAll(listing, items, index, skip);
  }

  /** The encoding loop of Export. */
  method PrepareAll(listing: Listing, items: seq<Item>, index: RefIndex, skip: bool)
    returns (records: seq<Node>, failed: nat)
    requires AllCanPrepare(listing.descs, items)
    ensures |records| == |items| - failed
    ensures failed == 0 <==> AllRowsResolved(listing, items, index, skip)
    ensures failed == 0 ==> Exported(listing, items, index, records)
  {
    hide Portable, AllResolved;
    records, failed := [], 0;
    for i := 0 to |items|
      invariant |records| == i - failed
      invariant failed == 0 <==> AllRowsResolved(listing, items[..i], index, skip)
      invariant failed == 0 ==> Exported(listing, items[..i], index, records)
    {
      assert items[..i + 1] == items[..i] + [items[i]];
      var record, unresolved := PrepareRecord(items[i].typ, listing.descs[items[i].typ], items[i].node, index, skip);
      if |unresolved| > 0 {
        failed := failed + 1;
        continue;
      }
      records := records + [record];
    }
    assert items[..|items|] == items;
  }

  lemma {:induction false} ScheduledRows(listing: Listing, nodeIndex: NodeIndex, items: seq<Item>)
    requires listing.Valid() && Indexes(nodeIndex, listing) && Scheduled(listing, nodeIndex, items)
    requires ValidDescriptors(listing.descs) && NoTypename(listing)
    ensures AllCanPrepare(listing.descs, items)
  {
    forall i | 0 <= i < |items|
      ensures CanPrepare(listing.descs, items[i])
    {
      assert items[i] in items;
    }
  }

  ghost predicate AllCanPrepare(descs: map<TypeName, Descriptor>, items: seq<Item>) {
    forall i :: 0 <= i < |items| ==> CanPrepare(descs, items[i])
  }

  ghost predicate CanPrepare(descs: map<TypeName, Descriptor>, item: Item) {
    item.typ in descs && ValidReferences(descs[item.typ].references) && Typename !in item.node
  }

  /** No row has an unresolved reference, or they may be left out. */
  ghost predicate AllRowsResolved(listing: Listing, items: seq<Item>, index: RefIndex, skip: bool) {
    forall i :: 0 <= i < |items| && items[i].typ in listing.descs ==>
      skip || AllResolved(listing.descs[items[i].typ], items[i].node, index)
  }

  /** Every row of the listing once. */
  ghost predicate Lists(listing: Listing, items: seq<Item>) {
    && Graphs.Distinct(KeysOf(items))
    && (forall k :: k in KeysOf(items) <==> k in listing.Keys())
    && (forall item :: item in items ==> listing.HasRow(item.Key(), item.node))
  }

  /** Targets first when the rows are acyclic. */
  ghost predicate Scheduled(listing: Listing, nodeIndex: NodeIndex, items: seq<Item>) {
    && Lists(listing, items)
    && (Graphs.TargetsFirst(RowGraph(listing, nodeIndex), KeysOf(items)) <==>
        Graphs.Acyclic(RowGraph(listing, nodeIndex)))
  }

  /** records are the portable forms of the items. */
  ghost predicate Exported(listing: Listing, items: seq<Item>, index: RefIndex, records: seq<Node>) {
    && |records| == |items|
    && forall i :: 0 <= i < |items| ==>
      && items[i].typ in listing.descs
      && Portable(items[i].typ, listing.descs[items[i].typ], items[i].node, index, records[i])
  }

  lemma {:induction false} WalkStarts(listing: Listing, g: map<Key, set<Key>>)
    ensures RowWalk(listing, g, {}, {}, [])
  {
  }
}
