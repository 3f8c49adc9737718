/** The projection hook (dataindex/hook.go, dataindex/binding.go): after every accepted single-row
    mutation each bound slot holds the projection of the row's data, and every other slot is empty. */
module Projection {
  import opened Wrappers
  import opened DataIndex

  /** A string, or the text a list element is rendered to. */
  datatype Str = EMPTY | Token(token: int) | NumberText(number: int) | TrueText | FalseText

  /** A decoded JSON payload; numbers are opaque. */
  datatype Payload =
    | PNull | PString(s: Str) | PNumber(number: int) | PBool(b: bool)
    | PArray(elems: seq<Payload>)
    | PObject(members: map<Segment, Payload>)

  datatype SlotValue = TextValue(s: Str) | NumberValue(number: int) | BoolValue(b: bool) | ListValue(items: seq<Str>)

  /** A value that does not have the type its slot column stores. */
  datatype Mismatch = Mismatch

  /** Walking a pointer's segments. */
  function Walk(p: Payload, segments: seq<Segment>): Option<Payload> {
    if segments == [] then Some(p)
    else if !p.PObject? || segments[0] !in p.members then None
    else Walk(p.members[segments[0]], segments[1..])
  }

  /** resolvePointer; data is nil when the row has none. */
  function Resolve(data: Option<map<Segment, Payload>>, source: Source): Option<Payload> {
    var whole := PObject(if data.Some? then data.value else map[]);
    match source
    case Root => Some(whole)
    case Path(segments) => if segments == [] then None else Walk(whole, segments)
    case Unusable(_) => None
  }

  method ResolvePointer(data: Option<map<Segment, Payload>>, source: Source) returns (r: Option<Payload>)
    ensures r == Resolve(data, source)
  {
    if source.Root? {
      return Some(PObject(if data.Some? then data.value else map[]));
    }
    if !source.Path? || |source.segments| == 0 {
      return None;
    }
    var segments := source.segments;
    var cur := PObject(if data.Some? then data.value else map[]);
    for i := 0 to |segments|
      invariant Walk(cur, segments[i..]) == Resolve(data, source)
    {
      assert segments[i..][1..] == segments[i + 1..];
      if !cur.PObject? || segments[i] !in cur.members {
        return None;
      }
      cur := cur.members[segments[i]];
    }
    r := Some(cur);
  }

  /** renderListElement: scalars have a text, null the empty one; objects and arrays have none. */
  function Render(p: Payload): Option<Str> {
    match p
    case PString(s) => Some(s)
    case PNumber(n) => Some(NumberText(n))
    case PBool(b) => Some(if b then TrueText else FalseText)
    case PNull => Some(EMPTY)
    case _ => None
  }

  function RenderAll(elems: seq<Payload>): Result<seq<Str>, Mismatch> {
    if elems == [] then Ok([])
    else
      match (RenderAll(elems[..|elems| - 1]), Render(elems[|elems| - 1]))
      case (Ok(items), Some(s)) => Ok(if s == EMPTY then items else items + [s])
      case _ => Err(Mismatch)
  }

  /** Project: nothing to index, a value of the slot's kind, or an error. */
  function Projected(data: Option<map<Segment, Payload>>, b: Binding): Result<Option<SlotValue>, Mismatch> {
    match Resolve(data, b.source)
    case None => Ok(None)
    case Some(raw) =>
      if raw == PNull then Ok(None)
      else match b.slot.kind
        case Some(Text) => if raw.PString? then Ok(Some(TextValue(raw.s))) else Err(Mismatch)
        case Some(Numeric) => if raw.PNumber? then Ok(Some(NumberValue(raw.number))) else Err(Mismatch)
        case Some(Bool) => if raw.PBool? then Ok(Some(BoolValue(raw.b))) else Err(Mismatch)
        case Some(List) =>
          if !raw.PArray? then Err(Mismatch)
          else (match RenderAll(raw.elems)
                case Ok(items) => Ok(Some(ListValue(items)))
                case Err(_) => Err(Mismatch))
        case None => Err(Mismatch)
  }

  method Project(data: Option<map<Segment, Payload>>, b: Binding) returns (r: Result<Option<SlotValue>, Mismatch>)
    ensures r == Projected(data, b)
  {
    var raw := ResolvePointer(data, b.source);
    if raw.None? || raw.value == PNull {
      return Ok(None);
    }
    match b.slot.kind {
      case Some(Text) => return if raw.value.PString? then Ok(Some(TextValue(raw.value.s))) else Err(Mismatch);
      case Some(Numeric) =>
        return if raw.value.PNumber? then Ok(Some(NumberValue(raw.value.number))) else Err(Mismatch);
      case Some(Bool) => return if raw.value.PBool? then Ok(Some(BoolValue(raw.value.b))) else Err(Mismatch);
      case Some(List) =>
        if !raw.value.PArray? {
          return Err(Mismatch);
        }
        var elems := raw.value.elems;
        var out: seq<Str> := [];
        for i := 0 to |elems|
          invariant RenderAll(elems[..i]) == Ok(out)
        {
          assert elems[..i + 1][..i] == elems[..i];
          var s := Render(elems[i]);
          if s.None? {
            RenderFails(elems, i + 1);
            return Err(Mismatch);
          }
          if s.value != EMPTY {
            out := out + [s.value];
          }
        }
        assert elems[..|elems|] == elems;
        return Ok(Some(ListValue(out)));
      case None => return Err(Mismatch);
    }
  }

  lemma {:induction false} RenderFails(elems: seq<Payload>, n: nat)
    requires n <= |elems| && RenderAll(elems[..n]).Err?
    ensures RenderAll(elems).Err?
    decreases |elems| - n
  {
    if n == |elems| {
      assert elems[..n] == elems;
    } else {
      assert elems[..n + 1][..n] == elems[..n];
      RenderFails(elems, n + 1);
    }
  }

  /** A list has a text exactly when each of its elements has, and holds the texts that are not
      empty. */
  lemma {:induction false} ListTexts(elems: seq<Payload>)
    ensures RenderAll(elems).Ok? <==> forall i :: 0 <= i < |elems| ==> Render(elems[i]).Some?
    ensures RenderAll(elems).Ok? ==>
      forall s :: s in RenderAll(elems).value <==>
          s != EMPTY && exists i :: 0 <= i < |elems| && Render(elems[i]) == Some(s)
  {
    hide Render;
    if elems != [] {
      var init, last := elems[..|elems| - 1], elems[|elems| - 1];
      ListTexts(init);
      assert forall i :: 0 <= i < |init| ==> elems[i] == init[i];
      if RenderAll(elems).Ok? {
        forall s
          ensures s in RenderAll(elems).value <==>
              s != EMPTY && exists i :: 0 <= i < |elems| && Render(elems[i]) == Some(s)
        {
          if s in RenderAll(init).value {
            var i :| 0 <= i < |init| && Render(init[i]) == Some(s);
            assert Render(elems[i]) == Some(s);
          }
          if i :| 0 <= i < |elems| && Render(elems[i]) == Some(s) {
            assert i < |init| ==> Render(init[i]) == Some(s);
          }
        }
      }
    }
  }

  // ---- What a projection is ----

  /** Following the segments key by key from the payload leads to the value. */
  ghost predicate LeadsTo(p: Payload, segments: seq<Segment>, path: seq<Payload>, v: Payload) {
    && |path| == |segments| + 1 && path[0] == p && path[|segments|] == v
    && forall i :: 0 <= i < |segments| ==>
      path[i].PObject? && segments[i] in path[i].members && path[i + 1] == path[i].members[segments[i]]
  }

  /** The value at the binding's source; the source of a whole payload is the payload itself. */
  ghost predicate Sourced(data: Option<map<Segment, Payload>>, source: Source, v: Payload) {
    var whole := PObject(if data.None? then map[] else data.value);
    match source
    case Root => v == whole
    case Path(segments) => segments != [] && exists path :: LeadsTo(whole, segments, path, v)
    case Unusable(_) => false
  }

  /** The text of a scalar; null has the empty one. */
  predicate Shows(p: Payload, s: Str) {
    || (p.PNull? && s == EMPTY) || (p.PString? && s == p.s) || (p.PNumber? && s == NumberText(p.number))
    || (p == PBool(true) && s == TrueText) || (p == PBool(false) && s == FalseText)
  }

  /** items are the texts of the elements that are not empty, in their order. */
  predicate ShowsList(elems: seq<Payload>, items: seq<Str>) {
    if elems == [] then items == []
    else
      var init, last := elems[..|elems| - 1], elems[|elems| - 1];
      || (Shows(last, EMPTY) && ShowsList(init, items))
      || (items != [] && items[|items| - 1] != EMPTY && Shows(last, items[|items| - 1])
          && ShowsList(init, items[..|items| - 1]))
  }

  /** The value in the column of the slot's kind. */
  ghost predicate Stores(kind: Option<Kind>, raw: Payload, v: SlotValue) {
    match v
    case TextValue(s) => kind == Some(Text) && raw == PString(s)
    case NumberValue(n) => kind == Some(Numeric) && raw == PNumber(n)
    case BoolValue(b) => kind == Some(Bool) && raw == PBool(b)
    case ListValue(items) => kind == Some(List) && raw.PArray? && ShowsList(raw.elems, items)
  }

  lemma {:induction false} WalkLeads(p: Payload, segments: seq<Segment>, v: Payload)
    ensures Walk(p, segments) == Some(v) <==> exists path :: LeadsTo(p, segments, path, v)
  {
    if segments == [] {
      assert LeadsTo(p, segments, [p], p);
    } else if p.PObject? && segments[0] in p.members {
      var next := p.members[segments[0]];
      WalkLeads(next, segments[1..], v);
      if path :| LeadsTo(p, segments, path, v) {
        assert LeadsTo(next, segments[1..], path[1..], v);
      }
      if path :| LeadsTo(next, segments[1..], path, v) {
        assert LeadsTo(p, segments, [p] + path, v);
      }
    }
  }

  lemma {:induction false} ResolveMeans(data: Option<map<Segment, Payload>>, source: Source, v: Payload)
    ensures Resolve(data, source) == Some(v) <==> Sourced(data, source, v)
  {
    if source.Path? {
      WalkLeads(PObject(if data.Some? then data.value else map[]), source.segments, v);
    }
  }

  lemma {:induction false} RenderShows(p: Payload, s: Str)
    ensures Render(p) == Some(s) <==> Shows(p, s)
  {
  }

  lemma {:induction false} RenderAllShows(elems: seq<Payload>, items: seq<Str>)
    ensures RenderAll(elems) == Ok(items) <==> ShowsList(elems, items)
  {
    hide Render, Shows;
    if elems != [] {
      var init, last := elems[..|elems| - 1], elems[|elems| - 1];
      RenderShows(last, EMPTY);
      RenderAllShows(init, items);
      if items != [] {
        var m := |items| - 1;
        assert items == items[..m] + [items[m]];
        RenderShows(last, items[m]);
        RenderAllShows(init, items[..m]);
      }
    }
  }

  /** Nothing is projected exactly when there is no value at the source, or null; a value exactly when
      it is the one at the source in the slot's kind; and it is an error exactly when there is a value
      that the kind cannot store. */
  lemma {:induction false} ProjectionMeans(data: Option<map<Segment, Payload>>, b: Binding, v: SlotValue)
    ensures Projected(data, b) == Ok(None) <==> forall raw :: Sourced(data, b.source, raw) ==> raw == PNull
    ensures Projected(data, b) == Ok(Some(v)) <==>
      exists raw :: Sourced(data, b.source, raw) && raw != PNull && Stores(b.slot.kind, raw, v)
    ensures Projected(data, b).Err? <==>
      exists raw :: Sourced(data, b.source, raw) && raw != PNull && !exists w :: Stores(b.slot.kind, raw, w)
  {
    hide Sourced, Resolve, RenderAll;
    forall raw
      ensures Sourced(data, b.source, raw) <==> Resolve(data, b.source) == Some(raw)
    {
      ResolveMeans(data, b.source, raw);
    }
    if Resolve(data, b.source).Some? {
      var raw := Resolve(data, b.source).value;
      forall w
        ensures raw != PNull ==> (Projected(data, b) == Ok(Some(w)) <==> Stores(b.slot.kind, raw, w))
      {
        if raw.PArray? {
          RenderAllShows(raw.elems, if w.ListValue? then w.items else []);
        }
      }
    }
  }

  // ---- What validation is for ----

  /** A value as the schema type declares it. */
  predicate Conforms(declared: SchemaType, raw: Payload) {
    match declared
    case Undeclared => true
    case StringType => raw.PString?
    case NumberType => raw.PNumber?
    case IntegerType => raw.PNumber?
    case BooleanType => raw.PBool?
    case ArrayType => raw.PArray?
    case OtherType => raw.PObject?
  }

  predicate Scalar(p: Payload) { !p.PArray? && !p.PObject? }

  /** A declared type may be bound to a slot exactly if the slot can store some value of that type. */
  lemma {:induction false} AssignableIffStores(declared: SchemaType, kind: Option<Kind>)
    requires declared != Undeclared
    ensures Assignable(declared, kind) <==> exists raw, v :: Conforms(declared, raw) && Stores(kind, raw, v)
  {
    assert Stores(Some(Text), PString(EMPTY), TextValue(EMPTY)) && Conforms(StringType, PString(EMPTY));
    assert Stores(Some(Numeric), PNumber(0), NumberValue(0)) && Conforms(NumberType, PNumber(0));
    assert Conforms(IntegerType, PNumber(0));
    assert Stores(Some(Bool), PBool(true), BoolValue(true)) && Conforms(BooleanType, PBool(true));
    assert ShowsList([], []);
    assert Stores(Some(List), PArray([]), ListValue([])) && Conforms(ArrayType, PArray([]));
  }

  /** So a row that conforms to its schema is never refused for an accepted binding of a declared type,
      as long as its lists hold scalars. */
  lemma {:induction false} ConformingProjects(data: Option<map<Segment, Payload>>, b: Binding, pool: set<Slot>,
          types: SchemaTypes, raw: Payload)
    requires BindingOk(b, pool, Some(types)) && b.source in types && types[b.source] != Undeclared
    requires Sourced(data, b.source, raw) && Conforms(types[b.source], raw)
    requires raw.PArray? ==> forall i :: 0 <= i < |raw.elems| ==> Scalar(raw.elems[i])
    ensures Projected(data, b).Ok? && Projected(data, b).value.Some?
  {
    hide Sourced, Resolve;
    ResolveMeans(data, b.source, raw);
    if raw.PArray? {
      ListTexts(raw.elems);
      forall i | 0 <= i < |raw.elems|
        ensures Render(raw.elems[i]).Some?
      {
        assert Scalar(raw.elems[i]);
      }
    }
  }

  /** The payload that has the value at the end of these segments. */
  function Nested(segments: seq<Segment>, v: Payload): Payload {
    if segments == [] then v else PObject(map[segments[0] := Nested(segments[1..], v)])
  }

  lemma {:induction false} NestedWalk(segments: seq<Segment>, v: Payload)
    ensures Walk(Nested(segments, v), segments) == Some(v)
  {
    if segments != [] {
      NestedWalk(segments[1..], v);
    }
  }

  /** A source is accepted exactly if something can be indexed through it. */
  lemma {:induction false} UsableIffProjects(source: Source)
    ensures Usable(source) <==> exists data, slot, v :: Projected(data, Binding(source, slot)) == Ok(Some(v))
  {
    if Usable(source) {
      var whole := Nested(source.segments, PBool(true));
      NestedWalk(source.segments, PBool(true));
      var b := Binding(source, Slot(Some(Bool), 1));
      assert Resolve(Some(whole.members), source) == Some(PBool(true));
      assert Projected(Some(whole.members), b) == Ok(Some(BoolValue(true)));
    } else {
      forall data, slot, v
        ensures Projected(data, Binding(source, slot)) != Ok(Some(v))
      {
      }
    }
  }

  // ---- One row ----

  type Slots = map<Slot, SlotValue>

  /** What projectSlot leaves in a slot: a missing value clears a scalar slot and empties a list. */
  function SlotHolds(slots: Slots, slot: Slot, v: Option<SlotValue>): Slots {
    match v
    case Some(value) => slots[slot := value]
    case None => if slot.kind == Some(List) then slots[slot := ListValue([])] else slots - {slot}
  }

  ghost predicate Holds(slots: Slots, b: Binding, data: Option<map<Segment, Payload>>) {
    match Projected(data, b)
    case Ok(Some(v)) => b.slot in slots && slots[b.slot] == v
    case Ok(None) => if b.slot.kind == Some(List) then b.slot in slots && slots[b.slot] == ListValue([])
        else b.slot !in slots
    case Err(_) => false
  }

  ghost predicate Bound(bs: Bindings, slot: Slot) { exists n :: n in bs && bs[n].slot == slot }

  /** Every bound slot holds its projection and every other slot is empty. */
  ghost predicate InStep(slots: Slots, bs: Bindings, data: Option<map<Segment, Payload>>) {
    && (forall n :: n in bs ==> Holds(slots, bs[n], data))
    && (forall slot :: slot in slots ==> Bound(bs, slot))
  }

  /** Writing one slot leaves every other name's slot as it is. */
  lemma {:induction false} SlotWritten(bs: Bindings, data: Option<map<Segment, Payload>>, slots: Slots, n: Name,
          v: Option<SlotValue>)
    requires OneNamePerSlot(bs) && n in bs && Projected(data, bs[n]) == Ok(v)
    ensures var after := SlotHolds(slots, bs[n].slot, v);
      && Holds(after, bs[n], data)
      && (forall m :: m in bs && m != n && Holds(slots, bs[m], data) ==> Holds(after, bs[m], data))
      && forall slot :: !Bound(bs, slot) ==> (slot in after <==> slot in slots)
  {
    hide Projected;
    assert Bound(bs, bs[n].slot);
    assert forall m :: m in bs && m != n ==> bs[m].slot != bs[n].slot;
  }

  /** A field of a mutation: left alone, set or cleared. */
  datatype Change<T> = Untouched | Set(value: T) | Cleared

  datatype Operation = CreateRow | UpdateRow | BulkUpdate

  /** BindingsFor, given what each datatype binds at the moment; a row without a datatype has none. */
  function BindingsOf(bindings: map<TypeKey, Bindings>, t: Option<TypeKey>): Bindings {
    if t.Some? && t.value in bindings then bindings[t.value] else map[]
  }

  class IndexedRow {
    var typ: Option<TypeKey>
    var data: Option<map<Segment, Payload>>
    var slots: Slots
    /** What the row's datatype bound when the row was last projected. */
    ghost var under: Bindings

    /** A row before its create: no type, no data, no slots. */
    constructor ()
      ensures Valid()
      ensures typ == None && data == None && slots == map[] && under == map[]
    {
      typ, data, slots, under := None, None, map[], map[];
    }

    ghost predicate Valid()
      reads this
    {
      OneNamePerSlot(under) && InStep(slots, under, data)
    }

    /** clearRetiredSlots: the slots only the previous bindings cover. */
    method ClearRetired(current: Slots, previous: Bindings, next: Bindings) returns (cleared: Slots)
      ensures forall slot :: slot in cleared <==> slot in current && !(Bound(previous, slot) && !Bound(next, slot))
      ensures forall slot :: slot in cleared ==> cleared[slot] == current[slot]
    {
      cleared := current;
      var names := previous.Keys;
      var kept := set n | n in next :: next[n].slot;
      while names != {}
        invariant names <= previous.Keys
        invariant forall slot :: slot in cleared ==> slot in current && cleared[slot] == current[slot]
        invariant forall slot :: slot in current && slot !in cleared ==> Bound(previous, slot) && !Bound(next, slot)
        invariant forall n :: n in previous && n !in names && previous[n].slot !in kept ==> previous[n].slot !in cleared
        decreases names
      {
        var n :| n in names;
        names := names - {n};
        if previous[n].slot !in kept {
          cleared := cleared - {previous[n].slot};
        }
      }
    }

    /** The loop over the new bindings. */
    method ProjectAll(current: Slots, bs: Bindings, payload: Option<map<Segment, Payload>>)
      returns (ok: bool, projected: Slots)
      requires OneNamePerSlot(bs)
      ensures ok <==> forall n :: n in bs ==> Projected(payload, bs[n]).Ok?
      ensures ok ==> forall n :: n in bs ==> Holds(projected, bs[n], payload)
      ensures ok ==> forall slot :: !Bound(bs, slot) ==> (slot in projected <==> slot in current)
    {
      hide Projected, Holds, SlotHolds, Bound;
      projected := current;
      var names := bs.Keys;
      while names != {}
        invariant names <= bs.Keys
        invariant forall n :: n in bs && n !in names ==>
            Projected(payload, bs[n]).Ok? && Holds(projected, bs[n], payload)
        invariant forall slot :: !Bound(bs, slot) ==> (slot in projected <==> slot in current)
        decreases names
      {
        var n :| n in names;
        names := names - {n};
        var v := Project(payload, bs[n]);
        if v.Err? {
          return false, projected;
        }
        SlotWritten(bs, payload, projected, n, v.value);
        projected := SlotHolds(projected, bs[n].slot, v.value);
      }
      ok := true;
    }

    /** ProjectHook around one mutation of the row; a refused mutation changes nothing.  bindings is
        what the datatypes bind now; they may have gained bindings since the row was last projected,
        and have not lost any. */
    method Mutate(op: Operation, newType: Change<TypeKey>, newData: Change<map<Segment, Payload>>,
            bindings: map<TypeKey, Bindings>) returns (ok: bool)
      requires Valid() && Keeps(BindingsOf(bindings, typ), under)
      requires forall t :: t in bindings ==> OneNamePerSlot(bindings[t])
      modifies this
      ensures Valid()
      ensures !ok ==> typ == old(typ) && data == old(data) && slots == old(slots) && under == old(under)
      ensures ok ==> typ == Effective(old(typ), newType) && Follows(old(typ), newType, typ)
      ensures ok ==> data == Effective(old(data), newData) && Follows(old(data), newData, data)
      ensures newType.Untouched? && newData.Untouched? ==> ok && slots == old(slots) && under == old(under)
      ensures !(newType.Untouched? && newData.Untouched?) ==>
        (ok <==> op != BulkUpdate && AllProject(BindingsOf(bindings, Effective(old(typ), newType)),
            Effective(old(data), newData)))
      ensures !(newType.Untouched? && newData.Untouched?) && ok ==>
        && (typ.Some? && typ.value in bindings ==> under == bindings[typ.value])
        && (typ.None? || typ.value !in bindings ==> under == map[])
    {
      if newType.Untouched? && newData.Untouched? {
        return true;
      }
      if op == BulkUpdate {
        return false;
      }
      var payload := Effective(data, newData);
      var next := BindingsOf(bindings, Effective(typ, newType));
      var after := slots;
      if !newType.Untouched? {
        after := ClearRetired(after, BindingsOf(bindings, typ), next);
      }
      CoveredSlots(slots, under, BindingsOf(bindings, typ), data);
      ok, after := ProjectAll(after, next, payload);
      if !ok {
        return;
      }
      typ := Effective(typ, newType);
      data := payload;
      slots := after;
      under := next;
    }
  }

  /** What the datatype binds now covers every slot the row fills. */
  lemma {:induction false} CoveredSlots(slots: Slots, under: Bindings, now: Bindings,
          data: Option<map<Segment, Payload>>)
    requires InStep(slots, under, data) && Keeps(now, under)
    ensures forall slot :: slot in slots ==> Bound(now, slot)
  {
    forall slot | slot in slots
      ensures Bound(now, slot)
    {
      var n :| n in under && under[n].slot == slot;
      assert n in now && now[n].slot == slot;
    }
  }

  function Effective<T>(stored: Option<T>, change: Change<T>): Option<T> {
    match change
    case Untouched => stored
    case Set(v) => Some(v)
    case Cleared => None
  }

  /** after is what the change makes of stored. */
  ghost predicate Follows<T>(stored: Option<T>, change: Change<T>, after: Option<T>) {
    && (change.Untouched? ==> after == stored)
    && (change.Set? ==> after == Some(change.value))
    && (change.Cleared? ==> after.None?)
  }

  ghost predicate AllProject(bs: Bindings, data: Option<map<Segment, Payload>>) {
    forall n :: n in bs ==> Projected(data, bs[n]).Ok?
  }
}
