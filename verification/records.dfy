/** Entities as the import/export tool sees them: maps of GraphQL fields to JSON values, and the
    descriptors that say what identifies an entity and what it refers to. */
module Records {
  import opened Wrappers

  /** A JSON string; the program only compares them, and knows the empty one. */
  datatype Text = EMPTY | Text(token: int)

  /** The __typename of an entity type. */
  type TypeName = Text

  /** The field names the tool treats specially, and all the others. */
  datatype Field =
    | Id | Typename | Ref
    | TenantID | CreatedAt | CreatedBy | UpdatedAt | UpdatedBy | DeletedAt | DeletedBy | DataTypeSlug
    | Named(name: int)

  datatype Value =
    | Null
    | Str(text: Text)
    | Other(token: int)
    | List(elems: seq<Value>)
    | Obj(fields: map<Field, Value>)

  type Node = map<Field, Value>

  datatype Reference = Reference(field: Field, target: TypeName)

  datatype Descriptor = Descriptor(
    identityFields: seq<Field>, references: seq<Reference>, immutableFields: seq<Field>, hasUpdate: bool)

  datatype Key = Key(typ: TypeName, id: Text)

  function At(node: Node, f: Field): Value { if f in node then node[f] else Null }

  /** The id of a node, empty when it has none or it is not a string. */
  function IdOf(node: Node): Text { if At(node, Id).Str? then At(node, Id).text else EMPTY }

  /** The ids a field holds, scalar or list; anything that is not a non-empty string is skipped. */
  function IdsIn(elems: seq<Value>): seq<Text> {
    if elems == [] then []
    else
      var last := elems[|elems| - 1];
      IdsIn(elems[..|elems| - 1]) + if last.Str? && last.text != EMPTY then [last.text] else []
  }

  function ReferencedIds(v: Value): seq<Text> {
    match v
    case Str(text) => if text == EMPTY then [] else [text]
    case List(elems) => IdsIn(elems)
    case _ => []
  }

  method CollectIds(v: Value) returns (ids: seq<Text>)
    ensures ids == ReferencedIds(v)
  {
    ids := [];
    match v {
      case Str(text) =>
        if text != EMPTY {
          ids := [text];
        }
      case List(elems) =>
        for i := 0 to |elems|
          invariant ids == IdsIn(elems[..i])
        {
          assert elems[..i + 1][..i] == elems[..i];
          if elems[i].Str? && elems[i].text != EMPTY {
            ids := ids + [elems[i].text];
          }
        }
        assert elems[..|elems|] == elems;
      case _ =>
    }
  }

  /** The rows one row names through its declared references. */
  ghost function TargetKeys(desc: Descriptor, node: Node): set<Key> {
    set r, id | r in desc.references && id in ReferencedIds(At(node, r.field)) :: Key(r.target, id)
  }

  // ---- The rows of an export ----

  /** What plan has listed: the descriptor and the rows of every requested type. */
  datatype Listing = Listing(descs: map<TypeName, Descriptor>, nodes: map<TypeName, seq<Node>>)
  {
    /** Rows have ids, and within a type no two share one. */
    ghost predicate Valid() {
      && descs.Keys == nodes.Keys
      && (forall t :: t in nodes ==> DistinctIds(nodes[t]))
    }

    ghost predicate HasRow(k: Key, node: Node) {
      k.typ in nodes && node in nodes[k.typ] && IdOf(node) == k.id
    }

    ghost function Keys(): set<Key> {
      set t, node | t in nodes && node in nodes[t] :: Key(t, IdOf(node))
    }
  }

  ghost predicate DistinctIds(rows: seq<Node>) {
    && (forall i :: 0 <= i < |rows| ==> IdOf(rows[i]) != EMPTY)
    && (forall i, j :: 0 <= i < j < |rows| ==> IdOf(rows[i]) != IdOf(rows[j]))
  }

  type NodeIndex = map<TypeName, map<Text, Node>>

  function Lookup(index: NodeIndex, k: Key): Node
    requires k.typ in index && k.id in index[k.typ]
  {
    index[k.typ][k.id]
  }

  /** byId finds exactly the given rows. */
  ghost predicate IndexesRows(byId: map<Text, Node>, rows: seq<Node>) {
    && (forall id :: id in byId ==> byId[id] in rows && IdOf(byId[id]) == id)
    && (forall node :: node in rows ==> IdOf(node) in byId && byId[IdOf(node)] == node)
  }

  ghost predicate Indexes(index: NodeIndex, listing: Listing) {
    && index.Keys == listing.nodes.Keys
    && (forall t :: t in listing.nodes ==> IndexesRows(index[t], listing.nodes[t]))
  }

  method IndexRows(rows: seq<Node>) returns (byId: map<Text, Node>)
    requires DistinctIds(rows)
    ensures IndexesRows(byId, rows)
  {
    byId := map[];
    for i := 0 to |rows|
      invariant forall id :: id in byId ==> byId[id] in rows && IdOf(byId[id]) == id
      invariant forall j :: 0 <= j < i ==> IdOf(rows[j]) in byId && byId[IdOf(rows[j])] == rows[j]
    {
      if IdOf(rows[i]) != EMPTY {
        byId := byId[IdOf(rows[i]) := rows[i]];
      }
    }
  }

  method BuildNodeIndex(listing: Listing) returns (index: NodeIndex)
    requires listing.Valid()
    ensures Indexes(index, listing)
  {
    index := map[];
    var types := listing.nodes.Keys;
    while types != {}
      invariant types <= listing.nodes.Keys && index.Keys == listing.nodes.Keys - types
      invariant forall t :: t in index ==> IndexesRows(index[t], listing.nodes[t])
      decreases types
    {
      var t :| t in types;
      var byId := IndexRows(listing.nodes[t]);
      index := index[t := byId];
      types := types - {t};
    }
  }

  /** Rows as vertices, references inside the listing as edges. */
  ghost function RowGraph(listing: Listing, index: NodeIndex): map<Key, set<Key>> {
    map k | k in listing.Keys() ::
      if k.typ in listing.descs && k.typ in index && k.id in index[k.typ]
      then TargetKeys(listing.descs[k.typ], Lookup(index, k))
      else {}
  }
}
