/** Reading records back (importer.go, refs.go): resolve the $refs of a record, look for the entity
    it names, then create, update or skip. */
module Importing {
  import opened Wrappers
  import opened Records
  import opened Ordering
  import opened Exporting

  /** The values of a type's identity fields. */
  datatype Identity = Identity(typ: TypeName, parts: seq<Value>)

  /** The resolver does not compare identities but the text they print as, with a separator. */
  datatype CacheKey = CacheKey(typ: TypeName, text: string)

  /** What a $ref can be answered from: the resolver's cache and aliases, and the server's rows; the
      text a value prints as; and the queries the server fails at the moment. */
  datatype Known = Known(
    cache: map<CacheKey, Text>, aliases: map<Text, Text>, store: seq<Item>, sprint: Value -> string,
    failing: Identity -> bool)

  // ---- The cache key of an identity ----

  const SEPARATOR: char := '\U{1F}'

  /** strings.Join. */
  function Join(texts: seq<string>): string {
    if texts == [] then []
    else if |texts| == 1 then texts[0]
    else texts[0] + [SEPARATOR] + Join(texts[1..])
  }

  function Texts(sprint: Value -> string, parts: seq<Value>): seq<string> {
    seq(|parts|, i requires 0 <= i < |parts| => sprint(parts[i]))
  }

  function Joined(sprint: Value -> string, parts: seq<Value>): string { Join(Texts(sprint, parts)) }

  function KeyOf(sprint: Value -> string, id: Identity): CacheKey { CacheKey(id.typ, Joined(sprint, id.parts)) }

  /** The key tells these identities apart. */
  ghost predicate Apart(sprint: Value -> string, named: set<Identity>) {
    forall a, b :: a in named && b in named && KeyOf(sprint, a) == KeyOf(sprint, b) ==> a == b
  }

  /** It does when different values print differently and none with the separator in it... */
  lemma {:induction false} JoinUnique(a: seq<string>, b: seq<string>)
    requires |a| == |b| && Join(a) == Join(b)
    requires (forall i :: 0 <= i < |a| ==> SEPARATOR !in a[i]) && forall i :: 0 <= i < |b| ==> SEPARATOR !in b[i]
    ensures a == b
  {
    if |a| > 1 {
      FirstUnique(a[0], b[0], Join(a[1..]), Join(b[1..]));
      JoinUnique(a[1..], b[1..]);
      assert a == [a[0]] + a[1..] && b == [b[0]] + b[1..];
    }
  }

  lemma {:induction false} FirstUnique(a: string, b: string, r: string, q: string)
    requires SEPARATOR !in a && SEPARATOR !in b && a + [SEPARATOR] + r == b + [SEPARATOR] + q
    ensures a == b && r == q
  {
    var x, y := a + [SEPARATOR] + r, b + [SEPARATOR] + q;
    assert x[|a|] == SEPARATOR && y[|b|] == SEPARATOR;
    assert x[..|a|] == a && y[..|b|] == b && x[|a| + 1..] == r && y[|b| + 1..] == q;
  }

  lemma {:induction false} SeparatorFreeIsApart(sprint: Value -> string, named: set<Identity>)
    requires forall a, b :: a in named && b in named && a.typ == b.typ ==> |a.parts| == |b.parts|
    requires forall a, v :: a in named && v in a.parts ==> SEPARATOR !in sprint(v)
    requires forall a, b, v, w :: a in named && b in named && v in a.parts && w in b.parts && sprint(v) == sprint(w) ==>
      v == w
    ensures Apart(sprint, named)
  {
    forall a, b | a in named && b in named && KeyOf(sprint, a) == KeyOf(sprint, b)
      ensures a == b
    {
      TextsUnique(sprint, a.parts, b.parts);
    }
  }

  lemma {:induction false} TextsUnique(sprint: Value -> string, a: seq<Value>, b: seq<Value>)
    requires |a| == |b| && Joined(sprint, a) == Joined(sprint, b)
    requires (forall v :: v in a ==> SEPARATOR !in sprint(v)) && forall v :: v in b ==> SEPARATOR !in sprint(v)
    requires forall v, w :: v in a && w in b && sprint(v) == sprint(w) ==> v == w
    ensures a == b
  {
    var x, y := Texts(sprint, a), Texts(sprint, b);
    forall i | 0 <= i < |a|
      ensures SEPARATOR !in x[i] && SEPARATOR !in y[i]
    {
      assert a[i] in a && b[i] in b;
    }
    JoinUnique(x, y);
    forall i | 0 <= i < |a|
      ensures a[i] == b[i]
    {
      assert x[i] == y[i] && a[i] in a && b[i] in b;
    }
  }

  /** ... and does not, for instance, for a value with the separator in it. */
  lemma {:induction false} SeparatorCollides()
    ensures Join([['a', SEPARATOR, 'b'], "c"]) == Join(["a", ['b', SEPARATOR, 'c']])
  {
    assert [['a', SEPARATOR, 'b'], "c"][1..] == ["c"] && ["a", ['b', SEPARATOR, 'c']][1..] == [['b', SEPARATOR, 'c']];
  }

  datatype Error =
    | MissingTypename | EmptyTypename | UnknownType | MissingIdentity | NotFound | NoId | Ambiguous
    | QueryFailed | InvalidValue | UnknownAlias | DuplicateAlias | Immutable | ServerRefused | MissingId

  // ---- $refs ----

  predicate RowMatches(item: Item, typ: TypeName, fields: seq<Field>, parts: seq<Value>) {
    item.typ == typ && Parts(fields, item.node) == parts
  }

  /** List filtered by the identity fields: the positions of the matching rows. */
  function Matches(store: seq<Item>, typ: TypeName, fields: seq<Field>, parts: seq<Value>): seq<nat> {
    if store == [] then []
    else
      var n := |store| - 1;
      Matches(store[..n], typ, fields, parts) + if RowMatches(store[n], typ, fields, parts) then [n] else []
  }

  lemma {:induction false} MatchesAre(store: seq<Item>, typ: TypeName, fields: seq<Field>, parts: seq<Value>)
    ensures forall i :: i in Matches(store, typ, fields, parts) <==>
        0 <= i < |store| && RowMatches(store[i], typ, fields, parts)
  {
    if store != [] {
      MatchesAre(store[..|store| - 1], typ, fields, parts);
    }
  }

  function Answer(descs: map<TypeName, Descriptor>, known: Known, typ: TypeName, parts: seq<Value>): Result<Text, Error>
    requires typ in descs
  {
    var key := KeyOf(known.sprint, Identity(typ, parts));
    if key in known.cache then Ok(known.cache[key])
    else if known.failing(Identity(typ, parts)) then Err(QueryFailed)
    else
      var m := Matches(known.store, typ, descs[typ].identityFields, parts);
      if |m| == 0 then Err(NotFound)
      else if |m| > 1 then Err(Ambiguous)
      else (MatchesAre(known.store, typ, descs[typ].identityFields, parts);
            assert m[0] in m;
            var node := known.store[m[0]].node;
            if At(node, Id).Str? then Ok(At(node, Id).text) else Err(NoId))
  }

  /** resolveRef: an alias, or a __typename with identity values. */
  function FindRef(descs: map<TypeName, Descriptor>, known: Known, ref: Value): Result<Text, Error> {
    match ref
    case Str(alias) => if alias in known.aliases then Ok(known.aliases[alias]) else Err(UnknownAlias)
    case Obj(fields) =>
      if Typename !in fields then Err(MissingTypename)
      else if !fields[Typename].Str? || fields[Typename].text == EMPTY then Err(EmptyTypename)
      else
        var typ := fields[Typename].text;
        if typ !in descs then Err(UnknownType)
        else (
          match IdentityOf(descs[typ], fields)
          case None => Err(MissingIdentity)
          case Some(parts) => Answer(descs, known, typ, parts))
    case _ => Err(InvalidValue)
  }

  predicate HoldsRef(v: Value) { v.Obj? && Ref in v.fields }

  function ResolveElem(descs: map<TypeName, Descriptor>, known: Known, v: Value): Result<Value, Error> {
    if !HoldsRef(v) then Ok(v)
    else match FindRef(descs, known, v.fields[Ref])
      case Ok(id) => Ok(Str(id))
      case Err(e) => Err(e)
  }

  function ResolveElems(descs: map<TypeName, Descriptor>, known: Known, elems: seq<Value>): Result<seq<Value>, Error> {
    if elems == [] then Ok([])
    else
      match ResolveElems(descs, known, elems[..|elems| - 1])
      case Err(e) => Err(e)
      case Ok(rest) =>
        match ResolveElem(descs, known, elems[|elems| - 1])
        case Err(e) => Err(e)
        case Ok(last) => Ok(rest + [last])
  }

  function ResolveValue(descs: map<TypeName, Descriptor>, known: Known, v: Value): Result<Value, Error> {
    match v
    case List(elems) =>
      (match ResolveElems(descs, known, elems)
       case Ok(out) => Ok(List(out))
       case Err(e) => Err(e))
    case _ => ResolveElem(descs, known, v)
  }

  // ---- What a $ref is answered with, answer by answer ----

  /** A ref with a known type and all of its identity values. */
  ghost predicate RefersTo(descs: map<TypeName, Descriptor>, ref: Value, id: Identity) {
    && ref.Obj? && Typename in ref.fields && ref.fields[Typename] == Str(id.typ) && id.typ != EMPTY && id.typ in descs
    && descs[id.typ].identityFields != [] && |id.parts| == |descs[id.typ].identityFields|
    && forall i :: 0 <= i < |id.parts| ==>
      id.parts[i] != Null && At(ref.fields, descs[id.typ].identityFields[i]) == id.parts[i]
  }

  /** The server's row i has this identity. */
  predicate HasIdentity(desc: Descriptor, store: seq<Item>, id: Identity, i: nat) {
    && i < |store| && store[i].typ == id.typ && |id.parts| == |desc.identityFields|
    && forall k :: 0 <= k < |id.parts| ==> At(store[i].node, desc.identityFields[k]) == id.parts[k]
  }

  /** Nothing is remembered about it, and the server answers. */
  predicate Asked(known: Known, id: Identity) { KeyOf(known.sprint, id) !in known.cache && !known.failing(id) }

  ghost predicate NoRow(desc: Descriptor, store: seq<Item>, id: Identity) {
    forall i: nat :: !HasIdentity(desc, store, id, i)
  }

  ghost predicate TwoRows(desc: Descriptor, store: seq<Item>, id: Identity) {
    exists i: nat, j: nat :: i < j && HasIdentity(desc, store, id, i) && HasIdentity(desc, store, id, j)
  }

  ghost predicate OneRow(desc: Descriptor, store: seq<Item>, id: Identity, v: Value) {
    exists i: nat :: HasIdentity(desc, store, id, i) && At(store[i].node, Id) == v
      && forall j: nat :: HasIdentity(desc, store, id, j) ==> j == i
  }

  predicate Rising(m: seq<nat>, n: nat) {
    (forall i :: 0 <= i < |m| ==> m[i] < n) && forall i, j :: 0 <= i < j < |m| ==> m[i] < m[j]
  }

  lemma {:induction false} MatchesRise(store: seq<Item>, typ: TypeName, fields: seq<Field>, parts: seq<Value>)
    ensures Rising(Matches(store, typ, fields, parts), |store|)
  {
    hide RowMatches;
    if store != [] {
      MatchesRise(store[..|store| - 1], typ, fields, parts);
    }
  }

  lemma {:induction false} MatchesHave(desc: Descriptor, store: seq<Item>, id: Identity)
    requires |id.parts| == |desc.identityFields|
    ensures var m := Matches(store, id.typ, desc.identityFields, id.parts);
      forall i: nat :: i in m <==> HasIdentity(desc, store, id, i)
  {
    MatchesAre(store, id.typ, desc.identityFields, id.parts);
    forall i: nat | i < |store|
      ensures RowMatches(store[i], id.typ, desc.identityFields, id.parts) <==> HasIdentity(desc, store, id, i)
    {
      if HasIdentity(desc, store, id, i) {
        assert Parts(desc.identityFields, store[i].node) == id.parts;
      }
      if RowMatches(store[i], id.typ, desc.identityFields, id.parts) {
        assert forall k :: 0 <= k < |id.parts| ==> Parts(desc.identityFields, store[i].node)[k] == id.parts[k];
      }
    }
  }

  /** One that the cache does not answer is answered by the server's one row with that identity. */
  lemma {:induction false} AnswerMeans(descs: map<TypeName, Descriptor>, known: Known, id: Identity, text: Text)
    requires id.typ in descs && |id.parts| == |descs[id.typ].identityFields|
    ensures var desc, key, answer :=
        descs[id.typ], KeyOf(known.sprint, id), Answer(descs, known, id.typ, id.parts);
      && (answer == Ok(text) <==>
          (key in known.cache && known.cache[key] == text)
              || (Asked(known, id) && OneRow(desc, known.store, id, Str(text))))
      && (answer == Err(QueryFailed) <==> key !in known.cache && known.failing(id))
      && (answer == Err(NotFound) <==> Asked(known, id) && NoRow(desc, known.store, id))
      && (answer == Err(Ambiguous) <==> Asked(known, id) && TwoRows(desc, known.store, id))
      && (answer == Err(NoId) <==>
          Asked(known, id) && exists v: Value :: !v.Str? && OneRow(desc, known.store, id, v))
  {
    hide KeyOf, HasIdentity, Matches;
    var desc := descs[id.typ];
    var m := Matches(known.store, id.typ, desc.identityFields, id.parts);
    MatchesHave(desc, known.store, id);
    MatchesRise(known.store, id.typ, desc.identityFields, id.parts);
    MatchesAre(known.store, id.typ, desc.identityFields, id.parts);
    assert id == Identity(id.typ, id.parts);
    assert |m| > 0 ==> m[0] in m;
    assert |m| > 1 ==> m[1] in m && m[0] < m[1];
    if |m| == 1 {
      assert HasIdentity(desc, known.store, id, m[0]) && m[0] < |known.store|;
      assert OneRow(desc, known.store, id, At(known.store[m[0]].node, Id));
    }
  }

  lemma {:induction false} RefersToOne(descs: map<TypeName, Descriptor>, ref: Value, id: Identity)
    requires ref.Obj? && Typename in ref.fields && ref.fields[Typename].Str? && ref.fields[Typename].text in descs
    requires ref.fields[Typename].text != EMPTY
    ensures RefersTo(descs, ref, id) <==>
      id.typ == ref.fields[Typename].text && IdentityOf(descs[id.typ], ref.fields) == Some(id.parts)
  {
    var desc := descs[ref.fields[Typename].text];
    if RefersTo(descs, ref, id) {
      assert Parts(desc.identityFields, ref.fields) == id.parts;
      forall f | f in desc.identityFields
        ensures At(ref.fields, f) != Null
      {
        var i :| 0 <= i < |desc.identityFields| && desc.identityFields[i] == f;
      }
    }
    if id.typ == ref.fields[Typename].text && IdentityOf(desc, ref.fields) == Some(id.parts) {
      assert forall i :: 0 <= i < |id.parts| ==>
          desc.identityFields[i] in desc.identityFields && Parts(desc.identityFields, ref.fields)[i] == id.parts[i];
    }
  }

  /** What is wrong with a ref that refers to nothing. */
  function RefError(descs: map<TypeName, Descriptor>, ref: Value): Error {
    if ref.Obj? && Typename !in ref.fields then MissingTypename
    else if ref.Obj? && (!ref.fields[Typename].Str? || ref.fields[Typename] == Str(EMPTY)) then EmptyTypename
    else if ref.Obj? && ref.fields[Typename].text !in descs then UnknownType
    else if ref.Obj? then MissingIdentity
    else InvalidValue
  }

  /** Every answer to a $ref: an alias is looked up, a reference by identity answered as above, and
      anything else is refused for what is wrong with it. */
  lemma {:induction false} FindRefMeans(descs: map<TypeName, Descriptor>, known: Known, ref: Value, id: Identity)
    ensures RefersTo(descs, ref, id) ==> FindRef(descs, known, ref) == Answer(descs, known, id.typ, id.parts)
    ensures ref.Str? && ref.text in known.aliases ==> FindRef(descs, known, ref) == Ok(known.aliases[ref.text])
    ensures ref.Str? && ref.text !in known.aliases ==> FindRef(descs, known, ref) == Err(UnknownAlias)
    ensures !ref.Str? && (forall other :: !RefersTo(descs, ref, other)) ==>
      FindRef(descs, known, ref) == Err(RefError(descs, ref))
  {
    if ref.Obj? && Typename in ref.fields && ref.fields[Typename].Str? && ref.fields[Typename].text in descs
        && ref.fields[Typename].text != EMPTY {
      RefersToOne(descs, ref, id);
      var typ := ref.fields[Typename].text;
      if IdentityOf(descs[typ], ref.fields).Some? {
        RefersToOne(descs, ref, Identity(typ, IdentityOf(descs[typ], ref.fields).value));
      }
    }
  }

  lemma {:induction false} ElemsSucceed(descs: map<TypeName, Descriptor>, known: Known, elems: seq<Value>,
          out: seq<Value>)
    ensures ResolveElems(descs, known, elems) == Ok(out) <==>
      |out| == |elems| && forall i :: 0 <= i < |elems| ==> ResolveElem(descs, known, elems[i]) == Ok(out[i])
  {
    hide ResolveElem;
    if elems != [] && out != [] {
      var n := |elems| - 1;
      ElemsSucceed(descs, known, elems[..n], out[..|out| - 1]);
      assert out == out[..|out| - 1] + [out[|out| - 1]];
    }
  }

  lemma {:induction false} ElemsFail(descs: map<TypeName, Descriptor>, known: Known, elems: seq<Value>, e: Error)
    ensures ResolveElems(descs, known, elems) == Err(e) <==>
      exists i :: 0 <= i < |elems| && ResolveElem(descs, known, elems[i]) == Err(e)
        && forall j :: 0 <= j < i ==> ResolveElem(descs, known, elems[j]).Ok?
  {
    hide ResolveElem;
    if elems != [] {
      var n := |elems| - 1;
      ElemsFail(descs, known, elems[..n], e);
      var rest := ResolveElems(descs, known, elems[..n]);
      if rest.Ok? {
        ElemsSucceed(descs, known, elems[..n], rest.value);
      } else {
        ElemsFail(descs, known, elems[..n], rest.error);
      }
    }
  }

  /** A list resolves element by element, and fails with its first element that does. */
  lemma {:induction false} ElemsMean(descs: map<TypeName, Descriptor>, known: Known, elems: seq<Value>,
          out: seq<Value>, e: Error)
    ensures ResolveValue(descs, known, List(elems)) == Ok(List(out)) <==>
      |out| == |elems| && forall i :: 0 <= i < |elems| ==> ResolveElem(descs, known, elems[i]) == Ok(out[i])
    ensures ResolveValue(descs, known, List(elems)) == Err(e) <==>
      exists i :: 0 <= i < |elems| && ResolveElem(descs, known, elems[i]) == Err(e)
        && forall j :: 0 <= j < i ==> ResolveElem(descs, known, elems[j]).Ok?
  {
    hide ResolveElem, ResolveElems;
    ElemsSucceed(descs, known, elems, out);
    ElemsFail(descs, known, elems, e);
  }

  /** What holds no $ref stays as it is; what does becomes the id the $ref is answered with. */
  lemma {:induction false} ElemMeans(descs: map<TypeName, Descriptor>, known: Known, v: Value, ref: Value, id: Text)
    ensures !(v.Obj? && Ref in v.fields) ==> ResolveElem(descs, known, v) == Ok(v)
    ensures v.Obj? && Ref in v.fields && v.fields[Ref] == ref ==>
      (ResolveElem(descs, known, v) == Ok(Str(id)) <==> FindRef(descs, known, ref) == Ok(id))
    ensures v.Obj? && Ref in v.fields && v.fields[Ref] == ref ==>
      forall e :: ResolveElem(descs, known, v) == Err(e) <==> FindRef(descs, known, ref) == Err(e)
  {
  }

  /** Every field resolves, and out holds the results. */
  ghost predicate Resolves(descs: map<TypeName, Descriptor>, known: Known, data: Node, out: Node) {
    out.Keys == data.Keys && forall f :: f in data ==> ResolveValue(descs, known, data[f]) == Ok(out[f])
  }

  ghost predicate AllResolve(descs: map<TypeName, Descriptor>, known: Known, data: Node) {
    forall f :: f in data ==> ResolveValue(descs, known, data[f]).Ok?
  }

  /** The $refs in a value name identities among these. */
  ghost predicate RefNamed(descs: map<TypeName, Descriptor>, named: set<Identity>, ref: Value) {
    ref.Obj? && Typename in ref.fields && ref.fields[Typename].Str? && ref.fields[Typename].text in descs ==>
      match IdentityOf(descs[ref.fields[Typename].text], ref.fields)
      case None => true
      case Some(parts) => Identity(ref.fields[Typename].text, parts) in named
  }

  ghost predicate ElemNamed(descs: map<TypeName, Descriptor>, named: set<Identity>, v: Value) {
    HoldsRef(v) ==> RefNamed(descs, named, v.fields[Ref])
  }

  ghost predicate ValueNamed(descs: map<TypeName, Descriptor>, named: set<Identity>, v: Value) {
    ElemNamed(descs, named, v) && (v.List? ==> forall elem :: elem in v.elems ==> ElemNamed(descs, named, elem))
  }

  ghost predicate DataNamed(descs: map<TypeName, Descriptor>, named: set<Identity>, data: Node) {
    forall f :: f in data ==> ValueNamed(descs, named, data[f])
  }

  /** b has cached some identities more than a. */
  ghost predicate OnlyNamed(sprint: Value -> string, named: set<Identity>, a: map<CacheKey, Text>,
          b: map<CacheKey, Text>) {
    forall key :: key in b && key !in a ==> exists id :: id in named && KeyOf(sprint, id) == key
  }

  /** Remembering the answers for some identities changes no answer for them. */
  ghost predicate SameAnswers(descs: map<TypeName, Descriptor>, named: set<Identity>, a: Known, b: Known) {
    && a.aliases == b.aliases && a.store == b.store && a.sprint == b.sprint && a.failing == b.failing
    && a.cache.Keys <= b.cache.Keys
    && OnlyNamed(a.sprint, named, a.cache, b.cache)
    && forall id :: id in named && id.typ in descs ==>
      Answer(descs, a, id.typ, id.parts) == Answer(descs, b, id.typ, id.parts)
  }

  lemma {:induction false} SameAnswersThen(descs: map<TypeName, Descriptor>, named: set<Identity>, a: Known, b: Known,
          c: Known)
    requires SameAnswers(descs, named, a, b) && SameAnswers(descs, named, b, c)
    ensures SameAnswers(descs, named, a, c)
  {
    hide Answer;
    forall key | key in c.cache && key !in a.cache
      ensures exists id :: id in named && KeyOf(a.sprint, id) == key
    {
    }
  }

  lemma {:induction false} SameFound(descs: map<TypeName, Descriptor>, named: set<Identity>, a: Known, b: Known,
          ref: Value)
    requires SameAnswers(descs, named, a, b) && RefNamed(descs, named, ref)
    ensures FindRef(descs, a, ref) == FindRef(descs, b, ref)
  {
  }

  lemma {:induction false} SameElems(descs: map<TypeName, Descriptor>, named: set<Identity>, a: Known, b: Known,
          elems: seq<Value>)
    requires SameAnswers(descs, named, a, b) && forall elem :: elem in elems ==> ElemNamed(descs, named, elem)
    ensures ResolveElems(descs, a, elems) == ResolveElems(descs, b, elems)
  {
    if elems != [] {
      SameElems(descs, named, a, b, elems[..|elems| - 1]);
      var last := elems[|elems| - 1];
      assert last in elems;
      if HoldsRef(last) {
        SameFound(descs, named, a, b, last.fields[Ref]);
      }
    }
  }

  lemma {:induction false} SameValue(descs: map<TypeName, Descriptor>, named: set<Identity>, a: Known, b: Known,
          v: Value)
    requires SameAnswers(descs, named, a, b) && ValueNamed(descs, named, v)
    ensures ResolveValue(descs, a, v) == ResolveValue(descs, b, v)
  {
    if v.List? {
      SameElems(descs, named, a, b, v.elems);
    } else if HoldsRef(v) {
      SameFound(descs, named, a, b, v.fields[Ref]);
    }
  }

  /** Caching the answer for one of these identities changes the answer for none of them: the key
      tells it apart from the others. */
  lemma {:induction false} AnswerCached(descs: map<TypeName, Descriptor>, named: set<Identity>, known: Known,
          id: Identity, answer: Text)
    requires Apart(known.sprint, named) && id in named && id.typ in descs
    requires Answer(descs, known, id.typ, id.parts) == Ok(answer)
    ensures SameAnswers(descs, named, known, known.(cache := known.cache[KeyOf(known.sprint, id) := answer]))
  {
    hide Joined;
    var after := known.(cache := known.cache[KeyOf(known.sprint, id) := answer]);
    forall other | other in named && other.typ in descs
      ensures Answer(descs, known, other.typ, other.parts) == Answer(descs, after, other.typ, other.parts)
    {
      assert KeyOf(known.sprint, other) == KeyOf(known.sprint, id) ==> other == id;
    }
  }

  // ---- Records ----

  /** A parsed line: __typename, the other fields, and a local alias or EMPTY. */
  datatype Record = Record(typ: TypeName, data: Node, alias: Text)

  /** What the server does for a record: whether it accepts the mutation, the id it would give a new
      entity, the fields it fills in or recomputes, and the queries it fails meanwhile. */
  datatype Mint = Mint(accepts: bool, id: Text, managed: Node, failing: Identity -> bool)

  ghost predicate ValidMint(m: Mint) {
    forall f :: f in m.managed ==> ServerManaged(f) && f != Id
  }

  datatype Action = Make | Change(row: nat) | Skip(row: nat) | Refuse(error: Error)

  datatype Outcome = Created | Updated | Skipped | Planned | Failed(error: Error)

  predicate Clashes(desc: Descriptor, data: Node, existing: Node) {
    exists f :: f in desc.immutableFields && f in data && f in existing && data[f] != existing[f]
  }

  /** The rows findExisting may return: by identity, or by id for a type without one. */
  function Existing(desc: Descriptor, store: seq<Item>, typ: TypeName, data: Node): seq<nat> {
    match IdentityOf(desc, data)
    case Some(parts) => Matches(store, typ, desc.identityFields, parts)
    case None =>
      if desc.identityFields == [] && Id in data then Matches(store, typ, [Id], [data[Id]]) else []
  }

  lemma {:induction false} ExistingAreRows(desc: Descriptor, store: seq<Item>, typ: TypeName, data: Node)
    ensures forall i :: i in Existing(desc, store, typ, data) ==> 0 <= i < |store|
  {
    match IdentityOf(desc, data)
    case Some(parts) => MatchesAre(store, typ, desc.identityFields, parts);
    case None =>
      if Id in data {
        MatchesAre(store, typ, [Id], [data[Id]]);
      }
  }

  /** The query findExisting makes, if the record has an identity. */
  function ExistingQuery(desc: Descriptor, typ: TypeName, data: Node): Option<Identity> {
    match IdentityOf(desc, data)
    case Some(parts) => Some(Identity(typ, parts))
    case None => if desc.identityFields == [] && Id in data then Some(Identity(typ, [data[Id]])) else None
  }

  predicate LookupFails(desc: Descriptor, failing: Identity -> bool, typ: TypeName, data: Node) {
    var query := ExistingQuery(desc, typ, data);
    query.Some? && failing(query.value)
  }

  /** What processRecord does with resolved data. */
  function Decide(desc: Descriptor, failing: Identity -> bool, store: seq<Item>, typ: TypeName,
          data: Node): (action: Action)
    ensures action.Change? || action.Skip? ==> action.row < |store| && IdOf(store[action.row].node) != EMPTY
  {
    var found := Existing(desc, store, typ, data);
    if LookupFails(desc, failing, typ, data) then Refuse(QueryFailed)
    else if found == [] then Make
    else (
      ExistingAreRows(desc, store, typ, data);
      assert found[0] in found;
      var node := store[found[0]].node;
      if IdOf(node) == EMPTY then Refuse(NoId)
      else if Clashes(desc, data, node) then Refuse(Immutable)
      else if desc.hasUpdate then Change(found[0])
      else Skip(found[0]))
  }

  function NewNode(data: Node, mint: Mint): Node { data + mint.managed + map[Id := Str(mint.id)] }

  function ChangedNode(node: Node, data: Node, mint: Mint): Node { node + (data - {Id}) + (mint.managed - {Id}) }

  /** The rows after the action, if the server goes along. */
  function Apply(action: Action, store: seq<Item>, typ: TypeName, data: Node, mint: Mint): seq<Item>
    requires action.Change? ==> action.row < |store|
  {
    if !mint.accepts then store
    else match action
      case Make => store + [Item(typ, NewNode(data, mint))]
      case Change(row) => store[row := Item(store[row].typ, ChangedNode(store[row].node, data, mint))]
      case _ => store
  }

  function Remember(sprint: Value -> string, cache: map<CacheKey, Text>, desc: Descriptor, typ: TypeName, node: Node,
          id: Text): map<CacheKey, Text>
  {
    match IdentityOf(desc, node)
    case Some(parts) => cache[KeyOf(sprint, Identity(typ, parts)) := id]
    case None => cache
  }

  // ---- What a record does to the rows, in their own terms ----

  /** The row answers to the record's identity, or to its id for a type without identity fields. */
  ghost predicate SameEntity(desc: Descriptor, typ: TypeName, data: Node, item: Item) {
    && item.typ == typ
    && if desc.identityFields == [] then Id in data && At(item.node, Id) == data[Id]
       else forall f :: f in desc.identityFields ==> At(data, f) != Null && At(item.node, f) == At(data, f)
  }

  /** The row the server finds: the first that does. */
  ghost predicate Found(desc: Descriptor, typ: TypeName, data: Node, store: seq<Item>, i: nat) {
    && i < |store| && SameEntity(desc, typ, data, store[i])
    && forall j :: 0 <= j < i ==> !SameEntity(desc, typ, data, store[j])
  }

  /** What the existence check asks for: the record's identity, or its id. */
  ghost predicate Asks(desc: Descriptor, typ: TypeName, data: Node, query: Identity) {
    && query.typ == typ
    && if desc.identityFields == [] then Id in data && query.parts == [data[Id]]
       else |query.parts| == |desc.identityFields| && forall i :: 0 <= i < |query.parts| ==>
         At(data, desc.identityFields[i]) != Null && query.parts[i] == At(data, desc.identityFields[i])
  }

  ghost predicate AskFails(desc: Descriptor, failing: Identity -> bool, typ: TypeName, data: Node) {
    exists query :: Asks(desc, typ, data, query) && failing(query)
  }

  /** Some field fixed at creation is in both and differs. */
  ghost predicate ChangesFixed(desc: Descriptor, data: Node, node: Node) {
    exists f :: f in desc.immutableFields && f in data && f in node && data[f] != node[f]
  }

  /** The record's fields are taken over, but for the id; what the server fills in is its own; and every
      other field stays. */
  ghost predicate TakesOver(before: Node, after: Node, data: Node, mint: Mint) {
    && (forall f :: f in mint.managed && f != Id ==> f in after && after[f] == mint.managed[f])
    && (forall f :: f in data && f != Id && f !in mint.managed ==> f in after && after[f] == data[f])
    && (forall f :: f == Id || (f !in data && f !in mint.managed) ==>
        (f in after <==> f in before) && (f in before ==> after[f] == before[f]))
  }

  ghost predicate Updates(before: seq<Item>, after: seq<Item>, i: nat, data: Node, mint: Mint) {
    && i < |before| == |after| && after[i].typ == before[i].typ
    && (forall j :: 0 <= j < |before| && j != i ==> after[j] == before[j])
    && TakesOver(before[i].node, after[i].node, data, mint)
  }

  ghost predicate Creates(before: seq<Item>, after: seq<Item>, typ: TypeName, data: Node, mint: Mint) {
    && |after| == |before| + 1 && after[..|before|] == before
    && after[|before|].typ == typ && At(after[|before|].node, Id) == Str(mint.id)
    && (var node := after[|before|].node;
        && (forall f :: f in mint.managed && f != Id ==> f in node && node[f] == mint.managed[f])
        && (forall f :: f in data && f != Id && f !in mint.managed ==> f in node && node[f] == data[f])
        && (forall f :: f in node ==> f in data || f in mint.managed || f == Id))
  }

  ghost predicate UpdatesFound(desc: Descriptor, typ: TypeName, data: Node, mint: Mint, before: seq<Item>,
          after: seq<Item>)
  {
    exists i: nat :: Found(desc, typ, data, before, i) && Updates(before, after, i, data, mint)
  }

  ghost predicate FoundFixed(desc: Descriptor, typ: TypeName, data: Node, store: seq<Item>) {
    exists i: nat :: Found(desc, typ, data, store, i)
        && IdOf(store[i].node) != EMPTY && ChangesFixed(desc, data, store[i].node)
  }

  /** Every way a record whose references resolve can end; taken says whether its alias is in use. */
  ghost predicate Ends(desc: Descriptor, failing: Identity -> bool, typ: TypeName, data: Node, mint: Mint,
          taken: bool, before: seq<Item>, after: seq<Item>, outcome: Outcome)
  {
    if AskFails(desc, failing, typ, data) then outcome == Failed(QueryFailed) && after == before
    else if i: nat :| Found(desc, typ, data, before, i) then
      var node := before[i].node;
      if IdOf(node) == EMPTY then outcome == Failed(NoId) && after == before
      else if ChangesFixed(desc, data, node) then outcome == Failed(Immutable) && after == before
      else if !desc.hasUpdate then after == before && outcome == (if taken then Failed(DuplicateAlias) else Skipped)
      else if !mint.accepts then outcome == Failed(ServerRefused) && after == before
      else Updates(before, after, i, data, mint) && outcome == (if taken then Failed(DuplicateAlias) else Updated)
    else if !mint.accepts then outcome == Failed(ServerRefused) && after == before
    else
      && Creates(before, after, typ, data, mint)
      && outcome == if mint.id == EMPTY then Failed(MissingId)
                    else if taken then Failed(DuplicateAlias) else Outcome.Created
  }

  lemma {:induction false} MatchesFirst(store: seq<Item>, typ: TypeName, fields: seq<Field>, parts: seq<Value>)
    ensures var m := Matches(store, typ, fields, parts);
      m != [] ==> m[0] < |store| && forall j :: 0 <= j < m[0] ==> !RowMatches(store[j], typ, fields, parts)
  {
    if store != [] {
      var n := |store| - 1;
      MatchesFirst(store[..n], typ, fields, parts);
      MatchesAre(store[..n], typ, fields, parts);
      assert forall j :: 0 <= j < n ==> (j in Matches(store[..n], typ, fields, parts) <==>
        RowMatches(store[j], typ, fields, parts));
    }
  }

  lemma {:induction false} PartsAre(desc: Descriptor, typ: TypeName, data: Node, item: Item)
    ensures desc.identityFields != [] && IdentityOf(desc, data).Some? ==>
      (RowMatches(item, typ, desc.identityFields, IdentityOf(desc, data).value) <==> SameEntity(desc, typ, data, item))
    ensures desc.identityFields != [] && IdentityOf(desc, data).None? ==> !SameEntity(desc, typ, data, item)
    ensures desc.identityFields == [] && Id in data ==>
      (RowMatches(item, typ, [Id], [data[Id]]) <==> SameEntity(desc, typ, data, item))
  {
    var fields := desc.identityFields;
    if fields != [] && IdentityOf(desc, data).Some? {
      var parts := IdentityOf(desc, data).value;
      if SameEntity(desc, typ, data, item) {
        assert Parts(fields, item.node) == parts;
      }
      if RowMatches(item, typ, fields, parts) {
        forall f | f in fields
          ensures At(item.node, f) == At(data, f)
        {
          var i :| 0 <= i < |fields| && fields[i] == f;
          assert Parts(fields, item.node)[i] == parts[i];
        }
      }
    } else if fields == [] && Id in data {
      assert Parts([Id], item.node) == [At(item.node, Id)];
    }
  }

  lemma {:induction false} ExistingIsFound(desc: Descriptor, store: seq<Item>, typ: TypeName, data: Node)
    ensures var found := Existing(desc, store, typ, data);
      && (found != [] ==> found[0] < |store| && Found(desc, typ, data, store, found[0]))
      && (found == [] ==> forall i :: 0 <= i < |store| ==> !SameEntity(desc, typ, data, store[i]))
  {
    hide RowMatches, SameEntity, IdentityOf, Matches;
    forall i | 0 <= i < |store|
      ensures desc.identityFields != [] && IdentityOf(desc, data).Some? ==>
        (RowMatches(store[i], typ, desc.identityFields, IdentityOf(desc, data).value) <==>
          SameEntity(desc, typ, data, store[i]))
      ensures desc.identityFields != [] && IdentityOf(desc, data).None? ==> !SameEntity(desc, typ, data, store[i])
      ensures desc.identityFields == [] && Id in data ==>
        (RowMatches(store[i], typ, [Id], [data[Id]]) <==> SameEntity(desc, typ, data, store[i]))
    {
      PartsAre(desc, typ, data, store[i]);
    }
    NoFieldsNoIdentity(desc, typ, data, store);
    match IdentityOf(desc, data)
    case Some(parts) =>
      MatchesFirst(store, typ, desc.identityFields, parts);
      MatchesAre(store, typ, desc.identityFields, parts);
    case None =>
      if Id in data {
        MatchesFirst(store, typ, [Id], [data[Id]]);
        MatchesAre(store, typ, [Id], [data[Id]]);
      }
  }

  lemma {:induction false} NoFieldsNoIdentity(desc: Descriptor, typ: TypeName, data: Node, store: seq<Item>)
    ensures desc.identityFields == [] ==> IdentityOf(desc, data).None?
    ensures desc.identityFields == [] && Id !in data ==>
      forall i :: 0 <= i < |store| ==> !SameEntity(desc, typ, data, store[i])
  {
  }

  lemma {:induction false} AskIsLookup(desc: Descriptor, failing: Identity -> bool, typ: TypeName, data: Node)
    ensures AskFails(desc, failing, typ, data) <==> LookupFails(desc, failing, typ, data)
  {
    var query := ExistingQuery(desc, typ, data);
    if query.Some? {
      assert Asks(desc, typ, data, query.value);
    }
    forall q | Asks(desc, typ, data, q)
      ensures query == Some(q)
    {
      if desc.identityFields != [] {
        forall f | f in desc.identityFields
          ensures At(data, f) != Null
        {
          var i :| 0 <= i < |desc.identityFields| && desc.identityFields[i] == f;
        }
        assert Parts(desc.identityFields, data) == q.parts;
      }
    }
  }

  lemma {:induction false} FoundOnce(desc: Descriptor, typ: TypeName, data: Node, store: seq<Item>, i: nat, j: nat)
    requires Found(desc, typ, data, store, i) && Found(desc, typ, data, store, j)
    ensures i == j
  {
    hide SameEntity;
  }

  lemma {:induction false} ChangedTakesOver(node: Node, data: Node, mint: Mint)
    ensures TakesOver(node, ChangedNode(node, data, mint), data, mint)
  {
  }

  lemma {:induction false} ApplyCreates(store: seq<Item>, typ: TypeName, data: Node, mint: Mint)
    ensures Creates(store, store + [Item(typ, NewNode(data, mint))], typ, data, mint)
  {
  }

  /** What processRecord decides and applies comes to one of these ends. */
  lemma {:induction false} DecidedEnds(desc: Descriptor, failing: Identity -> bool, typ: TypeName, data: Node,
          mint: Mint, taken: bool, store: seq<Item>, after: seq<Item>, outcome: Outcome)
    requires var action := Decide(desc, failing, store, typ, data);
      && after == Apply(action, store, typ, data, mint)
      && outcome == match action
         case Refuse(e) => Failed(e)
         case Skip(_) => if taken then Failed(DuplicateAlias) else Skipped
         case Change(_) =>
           if !mint.accepts then Failed(ServerRefused) else if taken then Failed(DuplicateAlias) else Updated
         case Make =>
           if !mint.accepts then Failed(ServerRefused) else if mint.id == EMPTY then Failed(MissingId)
           else if taken then Failed(DuplicateAlias) else Outcome.Created
    ensures Ends(desc, failing, typ, data, mint, taken, store, after, outcome)
  {
    hide SameEntity, Existing, AskFails, LookupFails, ChangedNode, NewNode, TakesOver, Creates, Matches;
    AskIsLookup(desc, failing, typ, data);
    ExistingIsFound(desc, store, typ, data);
    var found := Existing(desc, store, typ, data);
    if found != [] {
      ChangedTakesOver(store[found[0]].node, data, mint);
      forall i: nat | Found(desc, typ, data, store, i)
        ensures i == found[0]
      {
        FoundOnce(desc, typ, data, store, i, found[0]);
      }
    } else {
      ApplyCreates(store, typ, data, mint);
    }
  }

  datatype ImportResult = ImportResult(created: nat, updated: nat, skipped: nat, errors: nat)

  /** The record became a new row, and later $refs to its identity will find it. */
  ghost predicate MadeRow(descs: map<TypeName, Descriptor>, named: set<Identity>, record: Record, mint: Mint,
          before: Known, after: Known, data: Node) {
    && after.sprint == before.sprint && after.failing == before.failing
    && record.typ in descs && Resolves(descs, before, record.data, data)
    && after.store == before.store + [Item(record.typ, NewNode(data, mint))]
    && (record.alias == EMPTY ==> after.aliases == before.aliases)
    && exists cache ::
      && SameAnswers(descs, named, before, before.(cache := cache))
      && after.cache == Remember(before.sprint, cache, descs[record.typ], record.typ, NewNode(data, mint), mint.id)
  }

  lemma {:induction false} EndsMeans(desc: Descriptor, failing: Identity -> bool, typ: TypeName, data: Node, mint: Mint,
          taken: bool, before: seq<Item>, after: seq<Item>, outcome: Outcome)
    requires Ends(desc, failing, typ, data, mint, taken, before, after, outcome)
    ensures outcome == Updated ==> UpdatesFound(desc, typ, data, mint, before, after)
    ensures !AskFails(desc, failing, typ, data) ==>
      (outcome == Failed(Immutable) <==> FoundFixed(desc, typ, data, before))
  {
    hide Updates, Creates, ChangesFixed, AskFails, SameEntity;
    forall i: nat, j: nat | Found(desc, typ, data, before, i) && Found(desc, typ, data, before, j)
      ensures i == j
    {
      FoundOnce(desc, typ, data, before, i, j);
    }
  }

  /** The id under which later $refs find what the record became. */
  ghost predicate IdAfter(desc: Descriptor, typ: TypeName, data: Node, mint: Mint, before: seq<Item>, outcome: Outcome,
          id: Text) {
    if outcome.Created? then id == mint.id
    else exists i: nat :: Found(desc, typ, data, before, i) && id == IdOf(before[i].node)
  }

  /** Its alias leads to that id, and so does the identity of a row that was written. */
  ghost predicate Tracked(desc: Descriptor, sprint: Value -> string, record: Record, outcome: Outcome, after: seq<Item>,
          aliases: map<Text, Text>, cache: map<CacheKey, Text>, id: Text) {
    && (record.alias != EMPTY ==> record.alias in aliases && aliases[record.alias] == id)
    && (outcome.Created? || outcome.Updated? ==>
        exists i :: 0 <= i < |after| && after[i].typ == record.typ && IdOf(after[i].node) == id
            && (IdentityOf(desc, after[i].node).Some? ==>
                var key := KeyOf(sprint, Identity(record.typ, IdentityOf(desc, after[i].node).value));
                key in cache && cache[key] == id))
  }

  lemma {:induction false} FoundId(desc: Descriptor, failing: Identity -> bool, typ: TypeName, data: Node, mint: Mint,
          store: seq<Item>, outcome: Outcome, row: nat)
    requires var action := Decide(desc, failing, store, typ, data); action == Change(row) || action == Skip(row)
    requires !outcome.Created?
    ensures row < |store| && store[row].typ == typ && Found(desc, typ, data, store, row)
    ensures IdAfter(desc, typ, data, mint, store, outcome, IdOf(store[row].node))
    ensures IdOf(ChangedNode(store[row].node, data, mint)) == IdOf(store[row].node)
  {
    ExistingIsFound(desc, store, typ, data);
    ChangedTakesOver(store[row].node, data, mint);
  }

  lemma {:induction false} MadeId(desc: Descriptor, typ: TypeName, data: Node, mint: Mint, store: seq<Item>)
    ensures IdAfter(desc, typ, data, mint, store, Outcome.Created, mint.id)
  {
  }

  lemma {:induction false} SkipTracked(desc: Descriptor, sprint: Value -> string, record: Record, store: seq<Item>,
          aliases: map<Text, Text>, cache: map<CacheKey, Text>, id: Text)
    requires record.alias != EMPTY ==> record.alias in aliases && aliases[record.alias] == id
    ensures Tracked(desc, sprint, record, Skipped, store, aliases, cache, id)
  {
  }

  predicate Taken(alias: Text, aliases: map<Text, Text>) { alias != EMPTY && alias in aliases }

  class Importer {
    const descs: map<TypeName, Descriptor>
    const dryRun: bool
    const continueOnError: bool
    const sprint: Value -> string
    var cache: map<CacheKey, Text>
    var aliases: map<Text, Text>
    var store: seq<Item>
    var failing: Identity -> bool

    constructor (descs: map<TypeName, Descriptor>, store: seq<Item>, dryRun: bool, continueOnError: bool,
            sprint: Value -> string, failing: Identity -> bool)
      ensures this.descs == descs && this.store == store && this.dryRun == dryRun
          && this.continueOnError == continueOnError && this.sprint == sprint && this.failing == failing
      ensures cache == map[] && aliases == map[]
    {
      this.descs, this.store, this.dryRun, this.continueOnError := descs, store, dryRun, continueOnError;
      this.sprint, this.failing := sprint, failing;
      cache, aliases := map[], map[];
    }

    function State(): Known
      reads this`cache, this`aliases, this`store, this`failing
    {
      Known(cache, aliases, store, sprint, failing)
    }

    /** The cache key tells apart the identities named in the record. */
    ghost predicate Told(data: Node, named: set<Identity>) { Apart(sprint, named) && DataNamed(descs, named, data) }

    /** resolveRef: a cached answer or a query whose single hit is cached.  That changes no later
        answer for identities the cache key tells apart. */
    method ResolveRef(ref: Value, ghost named: set<Identity>) returns (r: Result<Text, Error>)
      modifies this`cache
      ensures r == old(FindRef(descs, State(), ref))
      ensures Apart(sprint, named) && RefNamed(descs, named, ref) ==> SameAnswers(descs, named, old(State()), State())
    {
      if ref.Str? {
        return if ref.text in aliases then Ok(aliases[ref.text]) else Err(UnknownAlias);
      }
      if !ref.Obj? {
        return Err(InvalidValue);
      }
      if Typename !in ref.fields {
        return Err(MissingTypename);
      }
      if !ref.fields[Typename].Str? || ref.fields[Typename].text == EMPTY {
        return Err(EmptyTypename);
      }
      var typ := ref.fields[Typename].text;
      if typ !in descs {
        return Err(UnknownType);
      }
      var identity := IdentityOf(descs[typ], ref.fields);
      if identity.None? {
        return Err(MissingIdentity);
      }
      var key := KeyOf(sprint, Identity(typ, identity.value));
      if key in cache {
        return Ok(cache[key]);
      }
      r := Answer(descs, State(), typ, identity.value);
      if r.Ok? {
        if Apart(sprint, named) && RefNamed(descs, named, ref) {
          AnswerCached(descs, named, State(), Identity(typ, identity.value), r.value);
        }
        cache := cache[key := r.value];
      }
    }

    /** The elements of a list, each of which may name another entity. */
    method ResolveList(elems: seq<Value>, ghost named: set<Identity>) returns (r: Result<seq<Value>, Error>)
      modifies this`cache
      ensures Apart(sprint, named) && (forall elem :: elem in elems ==> ElemNamed(descs, named, elem)) ==>
        r == old(ResolveElems(descs, State(), elems)) && SameAnswers(descs, named, old(State()), State())
    {
      hide Apart, RefNamed, SameAnswers, Answer, FindRef;
      ghost var known := State();
      ghost var told := Apart(sprint, named) && forall elem :: elem in elems ==> ElemNamed(descs, named, elem);
      SameAsNow(descs, named, known);
      var out: seq<Value> := [];
      for i := 0 to |elems|
        invariant told ==> SameAnswers(descs, named, known, State())
        invariant told ==> ResolveElems(descs, known, elems[..i]) == Ok(out)
      {
        assert elems[..i + 1][..i] == elems[..i];
        assert elems[i] in elems;
        if HoldsRef(elems[i]) {
          ghost var before := State();
          var id := ResolveRef(elems[i].fields[Ref], named);
          if told {
            SameFound(descs, named, known, before, elems[i].fields[Ref]);
            SameAnswersThen(descs, named, known, before, State());
          }
          if id.Err? {
            if told {
              ErrorStays(descs, known, elems, i + 1);
            }
            return Err(id.error);
          }
          out := out + [Str(id.value)];
        } else {
          out := out + [elems[i]];
        }
      }
      assert elems[..|elems|] == elems;
      r := Ok(out);
    }

    /** ResolveRefs: every field, in whatever order the map yields them; the order does not matter
        when the cache key tells the identities in the record apart. */
    method ResolveRefs(data: Node, ghost named: set<Identity>) returns (r: Result<Node, Error>)
      modifies this`cache
      ensures Told(data, named) ==>
        && (r.Ok? ==> Resolves(descs, old(State()), data, r.value))
        && (r.Err? ==> exists f :: f in data && ResolveValue(descs, old(State()), data[f]) == Err(r.error))
        && SameAnswers(descs, named, old(State()), State())
    {
      hide Apart, RefNamed, SameAnswers, Answer, FindRef;
      ghost var known := State();
      ghost var told := Told(data, named);
      SameAsNow(descs, named, known);
      var out := data;
      var fields := data.Keys;
      while fields != {}
        invariant fields <= data.Keys && out.Keys == data.Keys
        invariant told ==> SameAnswers(descs, named, known, State())
        invariant forall f :: f in fields ==> out[f] == data[f]
        invariant told ==>
          forall f :: f in data && f !in fields ==> ResolveValue(descs, known, data[f]) == Ok(out[f])
        decreases fields
      {
        var f :| f in fields;
        fields := fields - {f};
        ghost var before := State();
        if told {
          SameValue(descs, named, known, before, data[f]);
        }
        if data[f].List? {
          var elems := ResolveList(data[f].elems, named);
          if told {
            SameAnswersThen(descs, named, known, before, State());
          }
          if elems.Err? {
            return Err(elems.error);
          }
          out := out[f := List(elems.value)];
        } else if HoldsRef(data[f]) {
          var id := ResolveRef(data[f].fields[Ref], named);
          if told {
            SameAnswersThen(descs, named, known, before, State());
          }
          if id.Err? {
            return Err(id.error);
          }
          out := out[f := Str(id.value)];
        }
      }
      r := Ok(out);
    }

    /** trackAlias. */
    method TrackAlias(alias: Text, id: Text) returns (ok: bool)
      modifies this`aliases
      ensures ok <==> alias == EMPTY || alias !in old(aliases)
      ensures aliases == if ok && alias != EMPTY then old(aliases)[alias := id] else old(aliases)
    {
      if alias == EMPTY {
        return true;
      }
      if alias in aliases {
        return false;
      }
      aliases := aliases[alias := id];
      ok := true;
    }

    /** updateEntity: the row found takes the record's fields over, and is remembered under its id. */
    method UpdateEntity(record: Record, data: Node, row: nat, mint: Mint) returns (outcome: Outcome)
      requires record.typ in descs && row < |store| && store[row].typ == record.typ
      modifies this`cache, this`aliases, this`store
      ensures store == Apply(Change(row), old(store), record.typ, data, mint)
      ensures outcome ==
        if !mint.accepts then Failed(ServerRefused)
        else if Taken(record.alias, old(aliases)) then Failed(DuplicateAlias) else Updated
      ensures outcome == Updated ==>
        Tracked(descs[record.typ], sprint, record, outcome, store, aliases, cache, IdOf(old(store)[row].node))
    {
      if !mint.accepts {
        return Failed(ServerRefused);
      }
      var id := IdOf(store[row].node);
      ChangedTakesOver(store[row].node, data, mint);
      store := store[row := Item(record.typ, ChangedNode(store[row].node, data, mint))];
      cache := Remember(sprint, cache, descs[record.typ], record.typ, store[row].node, id);
      var tracked := TrackAlias(record.alias, id);
      outcome := if tracked then Updated else Failed(DuplicateAlias);
    }

    /** createEntity. */
    method CreateEntity(record: Record, data: Node, mint: Mint) returns (outcome: Outcome)
      requires record.typ in descs
      modifies this`cache, this`aliases, this`store
      ensures store == Apply(Make, old(store), record.typ, data, mint)
      ensures outcome ==
        if !mint.accepts then Failed(ServerRefused) else if mint.id == EMPTY then Failed(MissingId)
        else if Taken(record.alias, old(aliases)) then Failed(DuplicateAlias) else Outcome.Created
      ensures record.alias == EMPTY ==> aliases == old(aliases)
      ensures outcome == Outcome.Created ==>
        && cache == Remember(sprint, old(cache), descs[record.typ], record.typ, NewNode(data, mint), mint.id)
        && Tracked(descs[record.typ], sprint, record, outcome, store, aliases, cache, mint.id)
    {
      if !mint.accepts {
        return Failed(ServerRefused);
      }
      var node := NewNode(data, mint);
      store := store + [Item(record.typ, node)];
      if mint.id == EMPTY {
        return Failed(MissingId);
      }
      cache := Remember(sprint, cache, descs[record.typ], record.typ, node, mint.id);
      assert store[|store| - 1].typ == record.typ && IdOf(store[|store| - 1].node) == mint.id;
      var tracked := TrackAlias(record.alias, mint.id);
      outcome := if tracked then Outcome.Created else Failed(DuplicateAlias);
    }

    /** processRecord.  The rows change exactly as the resolved data and the server decide; in
        particular a failure changes nothing unless it is a duplicate alias or a missing id found
        after the server had already acted. */
    method ProcessRecord(record: Record, mint: Mint, ghost named: set<Identity>)
      returns (outcome: Outcome, ghost data: Node, ghost resolves: bool, ghost id: Text)
      modifies this`cache, this`aliases, this`store
      ensures record.typ !in descs ==> outcome == Failed(UnknownType) && store == old(store)
      ensures resolves ==> record.typ in descs
      // What resolving comes to is what the state before says, if the identities are told apart.
      ensures Told(record.data, named) && record.typ in descs ==>
        (resolves <==> Resolves(descs, old(State()), record.data, data))
      ensures Told(record.data, named) && record.typ in descs ==>
        (resolves <==> AllResolve(descs, old(State()), record.data))
      ensures resolves && !dryRun ==>
        store == Apply(Decide(descs[record.typ], failing, old(store), record.typ, data), old(store), record.typ, data,
            mint)
      ensures resolves && !dryRun ==>
        Ends(descs[record.typ], failing, record.typ, data, mint, Taken(record.alias, old(aliases)), old(store), store,
            outcome)
      // In particular: an update takes the record's fields over into its row; and a record that would
      // change a field fixed at creation is refused.
      ensures !outcome.Failed? && !outcome.Planned? ==>
        && IdAfter(descs[record.typ], record.typ, data, mint, old(store), outcome, id)
        && Tracked(descs[record.typ], sprint, record, outcome, store, aliases, cache, id)
      ensures outcome == Updated ==> UpdatesFound(descs[record.typ], record.typ, data, mint, old(store), store)
      ensures resolves && !dryRun && !AskFails(descs[record.typ], failing, record.typ, data) ==>
        (outcome == Failed(Immutable) <==> FoundFixed(descs[record.typ], record.typ, data, old(store)))
      ensures dryRun || !resolves ==> store == old(store)
      ensures Told(record.data, named) && outcome.Created? ==>
        MadeRow(descs, named, record, mint, old(State()), State(), data)
      ensures outcome.Planned? ==> dryRun
      ensures !outcome.Failed? ==> resolves
      ensures outcome.Failed? && store != old(store) ==>
        outcome.error == DuplicateAlias || (outcome.error == MissingId && mint.id == EMPTY)
      ensures resolves && MustCreate(record, mint, old(State()), data) ==> outcome == Outcome.Created
    {
      hide Apart, SameAnswers, DataNamed, Answer, ResolveValue, Ends, UpdatesFound, FoundFixed, AskFails, LookupFails,
          Existing, IdAfter, ChangedNode, IdentityOf, Found, Tracked, Remember, NewNode;
      data, resolves, id := map[], false, EMPTY;
      if record.typ !in descs {
        return Failed(UnknownType), data, resolves, id;
      }
      var desc := descs[record.typ];
      ghost var known := State();
      var resolved := ResolveRefs(record.data, named);
      if resolved.Err? {
        var e := resolved.error;
        return Failed(e), data, resolves, id;
      }
      data, resolves := resolved.value, true;
      if dryRun {
        return Planned, data, resolves, id;
      }
      var action := Decide(desc, failing, store, record.typ, resolved.value);
      ghost var before, taken := store, Taken(record.alias, aliases);
      match action {
        case Refuse(e) => outcome := Failed(e);
        case Skip(row) =>
          id := IdOf(store[row].node);
          FoundId(desc, failing, record.typ, data, mint, before, Skipped, row);
          var tracked := TrackAlias(record.alias, IdOf(store[row].node));
          outcome := if tracked then Skipped else Failed(DuplicateAlias);
          if tracked {
            SkipTracked(desc, sprint, record, store, aliases, cache, id);
          }
        case Change(row) =>
          id := IdOf(store[row].node);
          FoundId(desc, failing, record.typ, data, mint, before, Updated, row);
          outcome := UpdateEntity(record, resolved.value, row, mint);
        case Make =>
          id := mint.id;
          MadeId(desc, record.typ, data, mint, before);
          outcome := CreateEntity(record, resolved.value, mint);
      }
      DecidedEnds(desc, failing, record.typ, data, mint, taken, before, store, outcome);
      EndsMeans(desc, failing, record.typ, data, mint, taken, before, store, outcome);
    }

    /** Nothing stands in the way of creating the record. */
    ghost predicate MustCreate(record: Record, mint: Mint, before: Known, data: Node) {
      && !dryRun && record.typ in descs && record.alias == EMPTY
      && Decide(descs[record.typ], before.failing, before.store, record.typ, data) == Make
      && mint.accepts && mint.id != EMPTY
    }
  }

  lemma {:induction false} SameAsNow(descs: map<TypeName, Descriptor>, named: set<Identity>, known: Known)
    ensures SameAnswers(descs, named, known, known)
  {
  }

  lemma {:induction false} ErrorStays(descs: map<TypeName, Descriptor>, known: Known, elems: seq<Value>, n: nat)
    requires n <= |elems| && ResolveElems(descs, known, elems[..n]).Err?
    ensures ResolveElems(descs, known, elems) == ResolveElems(descs, known, elems[..n])
    decreases |elems| - n
  {
    if n == |elems| {
      assert elems[..n] == elems;
    } else {
      assert elems[..n + 1][..n] == elems[..n];
      ErrorStays(descs, known, elems, n + 1);
    }
  }
}
