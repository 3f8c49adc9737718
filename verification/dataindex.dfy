/** Indexed slots: which payload path feeds which slot column is frozen once declared
    (dataindex/validate.go, dataindex/validatehook.go). */
module DataIndex {
  import opened Wrappers

  datatype Name = Name(token: int)
  datatype Segment = Segment(token: int)
  datatype Entity = Entity(token: int)
  datatype TypeKey = TypeKey(token: int)

  datatype Kind = Text | Numeric | Bool | List

  /** A slot column; its name encodes its kind, and a name of no known kind has none. */
  datatype Slot = Slot(kind: Option<Kind>, number: int)

  /** A JSON pointer: the whole payload, usable segments, or a path pointerSegments refuses. */
  datatype Source = Root | Path(segments: seq<Segment>) | Unusable(token: int)

  datatype Binding = Binding(source: Source, slot: Slot)

  type Bindings = map<Name, Binding>

  // ---- Validate ----

  datatype SchemaType = Undeclared | StringType | NumberType | IntegerType | BooleanType | ArrayType | OtherType

  /** assignable. */
  predicate Assignable(declared: SchemaType, kind: Option<Kind>) {
    match kind
    case Some(Text) => declared == StringType
    case Some(Numeric) => declared == NumberType || declared == IntegerType
    case Some(Bool) => declared == BooleanType
    case Some(List) => declared == ArrayType
    case None => false
  }

  type SchemaTypes = map<Source, SchemaType>

  function TypeAt(types: SchemaTypes, source: Source): SchemaType {
    if source in types then types[source] else Undeclared
  }

  /** pointerSegments accepts the source. */
  predicate Usable(source: Source) { source.Path? && source.segments != [] }

  /** A single binding is acceptable. */
  predicate BindingOk(b: Binding, pool: set<Slot>, types: Option<SchemaTypes>) {
    && b.slot in pool && Usable(b.source)
    && (types.Some? && TypeAt(types.value, b.source) != Undeclared ==>
        Assignable(TypeAt(types.value, b.source), b.slot.kind))
  }

  /** No two names share a slot. */
  ghost predicate OneNamePerSlot(bs: Bindings) {
    forall m, n :: m in bs && n in bs && bs[m].slot == bs[n].slot ==> m == n
  }

  /** Every prior binding is kept as it is. */
  ghost predicate Keeps(next: Bindings, prior: Bindings) {
    forall n :: n in prior ==> n in next && next[n] == prior[n]
  }

  ghost predicate Acceptable(prior: Bindings, next: Bindings, pool: set<Slot>, types: Option<SchemaTypes>) {
    (forall n :: n in next ==> BindingOk(next[n], pool, types)) && OneNamePerSlot(next) && Keeps(next, prior)
  }

  datatype Rejection = UnknownSlot | BadSource | SlotCollision | NotAssignable | Frozen

  /** Validate: accepted exactly when every binding is in order, no slot is bound twice, and every
      binding ever declared is still there unchanged. */
  method Validate(prior: Bindings, next: Bindings, pool: set<Slot>, types: Option<SchemaTypes>)
    returns (r: Option<Rejection>)
    ensures r == None <==> Acceptable(prior, next, pool, types)
    ensures r == None ==> forall n :: n in next ==>
      && next[n].slot in pool && next[n].source.Path? && next[n].source.segments != []
      && (types.Some? && next[n].source in types.value && types.value[next[n].source] != Undeclared ==>
            Assignable(types.value[next[n].source], next[n].slot.kind))
    ensures r == Some(Frozen) ==> !Keeps(next, prior)
    ensures r == Some(SlotCollision) ==> !OneNamePerSlot(next)
    ensures r == Some(UnknownSlot) ==> exists n :: n in next && next[n].slot !in pool
    ensures r == Some(BadSource) ==> exists n :: n in next && !Usable(next[n].source)
    ensures r == Some(NotAssignable) ==>
      types.Some? && exists n ::
        && n in next && next[n].source in types.value && types.value[next[n].source] != Undeclared
        && !Assignable(types.value[next[n].source], next[n].slot.kind)
  {
    var bySlot: map<Slot, Name> := map[];
    var names := next.Keys;
    while names != {}
      invariant names <= next.Keys
      invariant forall n :: n in next && n !in names ==> BindingOk(next[n], pool, types)
      invariant forall n :: n in next && n !in names ==> next[n].slot in bySlot && bySlot[next[n].slot] == n
      invariant forall s :: s in bySlot ==> bySlot[s] in next && bySlot[s] !in names && next[bySlot[s]].slot == s
      decreases names
    {
      var n :| n in names;
      names := names - {n};
      var b := next[n];
      if b.slot !in pool {
        return Some(UnknownSlot);
      }
      if !Usable(b.source) {
        return Some(BadSource);
      }
      if b.slot in bySlot {
        assert bySlot[b.slot] != n;
        return Some(SlotCollision);
      }
      bySlot := bySlot[b.slot := n];
      if types.Some? && TypeAt(types.value, b.source) != Undeclared
          && !Assignable(TypeAt(types.value, b.source), b.slot.kind) {
        return Some(NotAssignable);
      }
    }
    names := prior.Keys;
    while names != {}
      invariant names <= prior.Keys
      invariant forall n :: n in prior && n !in names ==> n in next && next[n] == prior[n]
      decreases names
    {
      var n :| n in names;
      names := names - {n};
      if n !in next || next[n].slot != prior[n].slot || next[n].source != prior[n].source {
        return Some(Frozen);
      }
    }
    r := None;
  }

  // ---- The lineage of one (tenant, slug) ----

  /** A stored version, soft-deleted ones included; entity never changes. */
  datatype Version = Version(entity: Entity, bindings: Bindings)

  /** Union, the earliest declaration of a name winning. */
  function Union(versions: seq<Version>): Bindings {
    if versions == [] then map[]
    else
      var earlier := Union(versions[..|versions| - 1]);
      versions[|versions| - 1].bindings + earlier
  }

  /** A save of a new version, or of the schema of an existing one. */
  datatype Save = Create(entity: Entity, next: Bindings) | UpdateOne(index: nat, next: Bindings)

  /** What every lineage of accepted saves looks like. */
  ghost predicate Lineage(versions: seq<Version>, pools: map<Entity, set<Slot>>) {
    && (forall i :: 0 <= i < |versions| ==> Keeps(Union(versions), versions[i].bindings))
    && OneNamePerSlot(Union(versions))
    && (forall i :: 0 <= i < |versions| && versions[i].entity !in pools ==> versions[i].bindings == map[])
  }

  lemma {:induction false} UnionAt(versions: seq<Version>)
    ensures forall n :: n in Union(versions) <==> exists i :: 0 <= i < |versions| && n in versions[i].bindings
  {
    if versions != [] {
      var init, last := versions[..|versions| - 1], versions[|versions| - 1];
      UnionAt(init);
      forall n
        ensures n in Union(versions) <==> exists i :: 0 <= i < |versions| && n in versions[i].bindings
      {
        if i :| 0 <= i < |versions| && n in versions[i].bindings {
          if i < |init| {
            assert n in init[i].bindings;
          }
        }
        if n in Union(init) {
          var i :| 0 <= i < |init| && n in init[i].bindings;
          assert n in versions[i].bindings;
        }
      }
    }
  }

  /** A declaration that all others are part of is the union. */
  lemma {:induction false} UnionWithin(versions: seq<Version>, u: Bindings)
    requires forall i :: 0 <= i < |versions| ==> Keeps(u, versions[i].bindings)
    ensures Keeps(u, Union(versions))
  {
    if versions != [] {
      UnionWithin(versions[..|versions| - 1], u);
    }
  }

  /** The lineage after storing v at i; i is the length for a new version. */
  function Stored(versions: seq<Version>, i: nat, v: Version): seq<Version>
    requires i <= |versions|
  {
    if i < |versions| then versions[i := v] else versions + [v]
  }

  /** A version of an entity with slots that keeps the whole union becomes the union. */
  lemma {:induction false} PooledUnion(versions: seq<Version>, pools: map<Entity, set<Slot>>, i: nat, v: Version)
    requires Lineage(versions, pools) && i <= |versions| && Keeps(v.bindings, Union(versions))
    ensures Union(Stored(versions, i, v)) == v.bindings
    ensures forall j :: 0 <= j < |Stored(versions, i, v)| ==> Keeps(v.bindings, Stored(versions, i, v)[j].bindings)
  {
    hide Lineage, Union, Keeps;
    var after := Stored(versions, i, v);
    forall j | 0 <= j < |after|
      ensures Keeps(v.bindings, after[j].bindings)
    {
      if j == i {
        KeepsItself(v.bindings);
      } else {
        LineageKeeps(versions, pools, j);
        KeepsMore(v.bindings, Union(versions), versions[j].bindings);
      }
    }
    WholeUnion(after, i, v.bindings);
  }

  lemma {:induction false} KeepsItself(bs: Bindings)
    ensures Keeps(bs, bs)
  {
  }

  lemma {:induction false} KeepsMore(a: Bindings, b: Bindings, c: Bindings)
    requires Keeps(a, b) && Keeps(b, c)
    ensures Keeps(a, c)
  {
  }

  lemma {:induction false} LineageKeeps(versions: seq<Version>, pools: map<Entity, set<Slot>>, j: nat)
    requires Lineage(versions, pools) && j < |versions|
    ensures Keeps(Union(versions), versions[j].bindings)
  {
  }

  /** A version that keeps all others is their union. */
  lemma {:induction false} WholeUnion(versions: seq<Version>, i: nat, bs: Bindings)
    requires i < |versions| && versions[i].bindings == bs
    requires forall j :: 0 <= j < |versions| ==> Keeps(bs, versions[j].bindings)
    ensures Union(versions) == bs
  {
    hide Union;
    UnionWithin(versions, bs);
    forall n | n in bs
      ensures n in Union(versions)
    {
      UnionAt(versions);
      assert n in versions[i].bindings;
    }
  }

  /** A version of an entity without slots leaves the union alone. */
  lemma {:induction false} PoollessUnion(versions: seq<Version>, pools: map<Entity, set<Slot>>, i: nat, v: Version)
    requires Lineage(versions, pools) && i <= |versions| && v.bindings == map[] && v.entity !in pools
    requires i < |versions| ==> versions[i].entity == v.entity
    ensures Union(Stored(versions, i, v)) == Union(versions)
  {
    if i == |versions| {
      assert Stored(versions, i, v)[..i] == versions;
      assert map[] + Union(versions) == Union(versions);
    } else {
      assert versions[i] == v && versions[i := v] == versions;
    }
  }

  lemma {:induction false} LineageStep(versions: seq<Version>, pools: map<Entity, set<Slot>>, i: nat, v: Version)
    requires Lineage(versions, pools) && i <= |versions|
    requires v.entity in pools ==> Keeps(v.bindings, Union(versions)) && OneNamePerSlot(v.bindings)
    requires v.entity !in pools ==> v.bindings == map[]
    requires i < |versions| ==> versions[i].entity == v.entity
    ensures Lineage(Stored(versions, i, v), pools) && Keeps(Union(Stored(versions, i, v)), Union(versions))
  {
    if v.entity in pools {
      PooledUnion(versions, pools, i, v);
    } else {
      PoollessUnion(versions, pools, i, v);
    }
  }

  /** A row's own declarations add nothing to its lineage, and are all of it without a slug. */
  lemma {:induction false} MergedIsUnion(versions: seq<Version>, i: nat, slugged: bool)
    requires i < |versions| && Keeps(Union(versions), versions[i].bindings) && (!slugged ==> |versions| == 1)
    ensures versions[i].bindings + (if slugged then Union(versions) else map[]) == Union(versions)
  {
    if !slugged {
      assert versions[..0] == [];
    }
  }

  class DataTypes {
    const pools: map<Entity, set<Slot>>
    const slugged: bool
    var versions: seq<Version>

    /** The versions of one slug; or, without a slug, one datatype on its own. */
    constructor (pools: map<Entity, set<Slot>>, slugged: bool)
      ensures this.pools == pools && this.slugged == slugged && versions == [] && Lineage(versions, pools)
    {
      this.pools, this.slugged := pools, slugged;
      versions := [];
    }

    /** LineageBindings: nothing to look up without a slug. */
    function LineageBindings(): Bindings
      reads this
    {
      if slugged then Union(versions) else map[]
    }

    /** mergeCurrentBindings: the row's own declarations, where the lineage has none. */
    method MergeCurrent(prior: Bindings, current: Bindings) returns (merged: Bindings)
      ensures merged == current + prior
    {
      merged := prior;
      var names := current.Keys;
      while names != {}
        invariant names <= current.Keys
        invariant forall n :: n in merged <==> n in prior || (n in current && n !in names)
        invariant forall n :: n in merged ==> merged[n] == if n in prior then prior[n] else current[n]
        decreases names
      {
        var n :| n in names;
        names := names - {n};
        if n !in merged {
          merged := merged[n := current[n]];
        }
      }
    }

    /** ValidateHook on one save: bindings only ever grow, and a slot keeps one name and source over
        the whole lineage. */
    method SaveVersion(save: Save, types: SchemaTypes) returns (accepted: bool)
      requires Lineage(versions, pools)
      requires save.UpdateOne? ==> save.index < |versions|
      requires !slugged ==> |versions| <= 1 && (save.Create? ==> versions == [])
      modifies this`versions
      ensures Lineage(versions, pools)
      ensures var entity := if save.Create? then save.entity else old(versions)[save.index].entity;
        accepted <==>
          if entity in pools then Acceptable(Union(old(versions)), save.next, pools[entity], Some(types))
          else save.next == map[]
      ensures Keeps(Union(versions), Union(old(versions)))
      ensures !accepted ==> versions == old(versions)
      // What a save stores keeps everything declared before it, provided its entity has slots; a
      // version of an entity without slots is stored with no bindings, whatever the lineage holds.
      ensures accepted ==>
        var entity := if save.Create? then save.entity else old(versions)[save.index].entity;
        var i := if save.Create? then |old(versions)| else save.index;
        && versions == Stored(old(versions), i, Version(entity, save.next))
        && (Keeps(save.next, Union(old(versions))) <==> entity in pools || Union(old(versions)) == map[])
    {
      assert versions == [] ==> Union(versions) == map[];
      hide OneNamePerSlot, BindingOk, Union, Stored;
      var entity := if save.Create? then save.entity else versions[save.index].entity;
      var i := if save.Create? then |versions| else save.index;
      if entity !in pools {
        if save.next != map[] {
          return false;
        }
      } else {
        var oldBindings := LineageBindings();
        if save.UpdateOne? {
          MergedIsUnion(versions, save.index, slugged);
          oldBindings := MergeCurrent(oldBindings, versions[save.index].bindings);
        }
        assert oldBindings == Union(versions);
        var r := Validate(oldBindings, save.next, pools[entity], Some(types));
        if r.Some? {
          return false;
        }
      }
      LineageStep(versions, pools, i, Version(entity, save.next));
      KeepsOf(save.next, Union(versions), entity in pools);
      accepted := true;
      versions := Stored(versions, i, Version(entity, save.next));
    }
  }

  lemma {:induction false} KeepsOf(next: Bindings, union: Bindings, pooled: bool)
    requires if pooled then Keeps(next, union) else next == map[]
    ensures Keeps(next, union) <==> pooled || union == map[]
  {
    if !pooled && union != map[] {
      var n :| n in union;
    }
  }
}
