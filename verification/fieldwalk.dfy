/** The walk that collects a mutation's top-level field names (idempotency/precheck.go), the way
    CollectFields of section 6.3.2 of the GraphQL specification (October 2021) visits fragments. */
module FieldWalk {
  import opened Graphs

  datatype FragmentName = FragmentName(token: int)

  /** A spread whose name is not among the definitions is one without a definition. */
  datatype Selection =
    | Field(name: string)
    | InlineFragment(selections: seq<Selection>)
    | FragmentSpread(fragment: FragmentName)

  type Fragments = map<FragmentName, seq<Selection>>

  predicate Introspection(name: string) { |name| >= 2 && name[..2] == "__" }

  /** The fields a selection set names itself, inline fragments included, spreads not. */
  function OwnFields(sels: seq<Selection>): seq<string>
    decreases sels
  {
    if sels == [] then [] else FieldsOfSelection(sels[0]) + OwnFields(sels[1..])
  }

  function FieldsOfSelection(sel: Selection): seq<string> {
    match sel
    case Field(name) => if Introspection(name) then [] else [name]
    case InlineFragment(inner) => OwnFields(inner)
    case FragmentSpread(_) => []
  }

  /** The fragments a selection set spreads itself. */
  ghost function Spreads(sels: seq<Selection>): set<FragmentName>
    decreases sels
  {
    if sels == [] then {} else SpreadsOfSelection(sels[0]) + Spreads(sels[1..])
  }

  ghost function SpreadsOfSelection(sel: Selection): set<FragmentName> {
    match sel
    case Field(_) => {}
    case InlineFragment(inner) => Spreads(inner)
    case FragmentSpread(f) => {f}
  }

  ghost function SpreadGraph(fragments: Fragments): map<FragmentName, set<FragmentName>> {
    map f | f in fragments :: Spreads(fragments[f])
  }

  /** f is spread by the set, or by a fragment that is. */
  ghost predicate Reachable(fragments: Fragments, sels: seq<Selection>, f: FragmentName) {
    exists s :: s in Spreads(sels) && s in fragments && Reaches(SpreadGraph(fragments), s, f)
  }

  ghost function FieldsOf(fragments: Fragments, order: seq<FragmentName>): multiset<string>
    requires forall f :: f in order ==> f in fragments
  {
    if order == [] then multiset{}
    else FieldsOf(fragments, order[..|order| - 1]) + multiset(OwnFields(fragments[order[|order| - 1]]))
  }

  lemma {:induction false} FieldsOfAppend(fragments: Fragments, a: seq<FragmentName>, b: seq<FragmentName>)
    requires (forall f :: f in a ==> f in fragments) && (forall f :: f in b ==> f in fragments)
    ensures FieldsOf(fragments, a + b) == FieldsOf(fragments, a) + FieldsOf(fragments, b)
  {
    hide OwnFields;
    if b == [] {
      assert a + b == a;
    } else {
      assert (a + b)[..|a + b| - 1] == a + b[..|b| - 1];
      FieldsOfAppend(fragments, a, b[..|b| - 1]);
    }
  }

  /** CollectFields: the names in document order and the fragments visited, given those already
      visited.  A fragment's fields stand where it is spread first. */
  ghost function Collect(fragments: Fragments, sels: seq<Selection>,
          visited: set<FragmentName>): (r: (seq<string>, set<FragmentName>))
    requires visited <= fragments.Keys
    ensures visited <= r.1 <= fragments.Keys
    decreases fragments.Keys - visited, sels
  {
    if sels == [] then ([], visited)
    else
      var first := CollectOne(fragments, sels[0], visited);
      var rest := Collect(fragments, sels[1..], first.1);
      (first.0 + rest.0, rest.1)
  }

  ghost function CollectOne(fragments: Fragments, sel: Selection,
          visited: set<FragmentName>): (r: (seq<string>, set<FragmentName>))
    requires visited <= fragments.Keys
    ensures visited <= r.1 <= fragments.Keys
    decreases fragments.Keys - visited, sel
  {
    match sel
    case Field(name) => (if Introspection(name) then [] else [name], visited)
    case InlineFragment(inner) => Collect(fragments, inner, visited)
    case FragmentSpread(f) =>
      if f !in fragments || f in visited then ([], visited) else Collect(fragments, fragments[f], visited + {f})
  }

  lemma {:induction false} CollectAt(fragments: Fragments, sels: seq<Selection>, i: nat, visited: set<FragmentName>)
    requires i < |sels| && visited <= fragments.Keys
    ensures Collect(fragments, sels[i..], visited) ==
      (CollectOne(fragments, sels[i], visited).0 +
          Collect(fragments, sels[i + 1..], CollectOne(fragments, sels[i], visited).1).0,
       Collect(fragments, sels[i + 1..], CollectOne(fragments, sels[i], visited).1).1)
  {
    hide CollectOne;
    assert sels[i..][1..] == sels[i + 1..];
  }

  lemma {:induction false} OwnFieldsAppend(a: seq<Selection>, b: seq<Selection>)
    ensures OwnFields(a + b) == OwnFields(a) + OwnFields(b)
    ensures Spreads(a + b) == Spreads(a) + Spreads(b)
    decreases |a|
  {
    if a == [] {
      assert a + b == b;
    } else {
      hide FieldsOfSelection, SpreadsOfSelection;
      OwnFieldsAppend(a[1..], b);
      assert (a + b)[0] == a[0] && (a + b)[1..] == a[1..] + b;
    }
  }

  lemma {:induction false} OwnFieldsPrefix(sels: seq<Selection>, i: nat)
    requires i < |sels|
    ensures OwnFields(sels[..i + 1]) == OwnFields(sels[..i]) + OwnFields([sels[i]])
    ensures Spreads(sels[..i + 1]) == Spreads(sels[..i]) + Spreads([sels[i]])
  {
    hide OwnFields, Spreads;
    assert sels[..i + 1] == sels[..i] + [sels[i]];
    OwnFieldsAppend(sels[..i], [sels[i]]);
  }

  /** What walking a set added: its own fields and those of the fragments expanded on the way. */
  ghost predicate Added(fragments: Fragments, sels: seq<Selection>, names0: seq<string>, expanded0: set<FragmentName>,
          names: seq<string>, expanded: set<FragmentName>, order: seq<FragmentName>)
  {
    && Expanded(fragments, sels, expanded0, expanded, order)
    && Collected(fragments, sels, names0, names, order)
  }

  ghost predicate Collected(fragments: Fragments, sels: seq<Selection>, names0: seq<string>, names: seq<string>,
          order: seq<FragmentName>) {
    && (forall f :: f in order ==> f in fragments)
    && multiset(names) == multiset(names0) + multiset(OwnFields(sels)) + FieldsOf(fragments, order)
  }

  /** order lists the fragments newly expanded: all reachable, and nothing they spread is left out. */
  ghost predicate Expanded(fragments: Fragments, sels: seq<Selection>, expanded0: set<FragmentName>,
          expanded: set<FragmentName>, order: seq<FragmentName>) {
    && Distinct(order)
    && (forall f :: f in order ==> f !in expanded0)
    && (forall f :: f in expanded <==> f in expanded0 || f in order)
    && (forall f :: f in order ==> Reachable(fragments, sels, f))
    && (forall f :: f in Spreads(sels) && f in fragments ==> f in expanded)
    && (forall f, s :: f in order && f in fragments && s in Spreads(fragments[f]) && s in fragments ==> s in expanded)
  }

  lemma {:induction false} AddedNothing(fragments: Fragments, names: seq<string>, expanded: set<FragmentName>)
    ensures Added(fragments, [], names, expanded, names, expanded, [])
  {
  }

  lemma {:induction false} AddedField(fragments: Fragments, name: string, names: seq<string>,
          expanded: set<FragmentName>)
    ensures var after := if Introspection(name) then names else names + [name];
      Added(fragments, [Field(name)], names, expanded, after, expanded, [])
  {
    assert OwnFields([Field(name)]) == if Introspection(name) then [] else [name];
  }

  lemma {:induction false} AddedInline(fragments: Fragments, inner: seq<Selection>, names0: seq<string>,
          expanded0: set<FragmentName>, names: seq<string>, expanded: set<FragmentName>, order: seq<FragmentName>)
    requires Added(fragments, inner, names0, expanded0, names, expanded, order)
    ensures Added(fragments, [InlineFragment(inner)], names0, expanded0, names, expanded, order)
  {
    assert OwnFields([InlineFragment(inner)]) == OwnFields(inner) + [];
    assert OwnFields(inner) + [] == OwnFields(inner);
    assert Spreads([InlineFragment(inner)]) == Spreads(inner);
    forall f | f in order
      ensures Reachable(fragments, [InlineFragment(inner)], f)
    {
      assert Reachable(fragments, inner, f);
    }
  }

  lemma {:induction false} AddedKnownSpread(fragments: Fragments, f: FragmentName, names: seq<string>,
          expanded: set<FragmentName>)
    requires f in fragments ==> f in expanded
    ensures Added(fragments, [FragmentSpread(f)], names, expanded, names, expanded, [])
  {
    assert OwnFields([FragmentSpread(f)]) == [];
    assert Spreads([FragmentSpread(f)]) == {f};
  }

  lemma {:induction false} AddedNewSpread(fragments: Fragments, f: FragmentName, names0: seq<string>,
          expanded0: set<FragmentName>, names: seq<string>, expanded: set<FragmentName>, order: seq<FragmentName>)
    requires f in fragments && f !in expanded0
    requires Added(fragments, fragments[f], names0, expanded0 + {f}, names, expanded, order)
    ensures Added(fragments, [FragmentSpread(f)], names0, expanded0, names, expanded, [f] + order)
  {
    CollectedNewSpread(fragments, f, names0, names, order);
    ExpandedNewSpread(fragments, f, expanded0, expanded, order);
  }

  lemma {:induction false} CollectedNewSpread(fragments: Fragments, f: FragmentName, names0: seq<string>,
          names: seq<string>, order: seq<FragmentName>)
    requires f in fragments && Collected(fragments, fragments[f], names0, names, order)
    ensures Collected(fragments, [FragmentSpread(f)], names0, names, [f] + order)
  {
    assert OwnFields([FragmentSpread(f)]) == [];
    FieldsOfAppend(fragments, [f], order);
    assert FieldsOf(fragments, [f]) == multiset(OwnFields(fragments[f]));
  }

  lemma {:induction false} ExpandedNewSpread(fragments: Fragments, f: FragmentName, expanded0: set<FragmentName>,
          expanded: set<FragmentName>, order: seq<FragmentName>)
    requires f in fragments && f !in expanded0
    requires Expanded(fragments, fragments[f], expanded0 + {f}, expanded, order)
    ensures Expanded(fragments, [FragmentSpread(f)], expanded0, expanded, [f] + order)
  {
    assert Spreads([FragmentSpread(f)]) == {f};
    ReachesItself(SpreadGraph(fragments), f);
    assert forall x :: x in [f] + order <==> x == f || x in order;
    forall x | x in [f] + order
      ensures Reachable(fragments, [FragmentSpread(f)], x)
    {
      if x != f {
        var s :| s in Spreads(fragments[f]) && s in fragments && Reaches(SpreadGraph(fragments), s, x);
        ReachesEarlier(SpreadGraph(fragments), f, s, x);
      }
    }
  }

  /** Walking one selection after others. */
  lemma {:induction false} AddedThen(fragments: Fragments, sels: seq<Selection>, i: nat, names0: seq<string>,
          expanded0: set<FragmentName>, names1: seq<string>, expanded1: set<FragmentName>, order1: seq<FragmentName>,
          names2: seq<string>, expanded2: set<FragmentName>, order2: seq<FragmentName>)
    requires i < |sels|
    requires Added(fragments, sels[..i], names0, expanded0, names1, expanded1, order1)
    requires Added(fragments, [sels[i]], names1, expanded1, names2, expanded2, order2)
    ensures Added(fragments, sels[..i + 1], names0, expanded0, names2, expanded2, order1 + order2)
  {
    CollectedThen(fragments, sels, i, names0, names1, order1, names2, order2);
    ExpandedThen(fragments, sels, i, expanded0, expanded1, order1, expanded2, order2);
  }

  lemma {:induction false} CollectedThen(fragments: Fragments, sels: seq<Selection>, i: nat, names0: seq<string>,
          names1: seq<string>, order1: seq<FragmentName>, names2: seq<string>, order2: seq<FragmentName>)
    requires i < |sels|
    requires Collected(fragments, sels[..i], names0, names1, order1)
        && Collected(fragments, [sels[i]], names1, names2, order2)
    ensures Collected(fragments, sels[..i + 1], names0, names2, order1 + order2)
  {
    hide OwnFields, FieldsOf;
    OwnFieldsPrefix(sels, i);
    FieldsOfAppend(fragments, order1, order2);
    assert multiset(OwnFields(sels[..i + 1])) == multiset(OwnFields(sels[..i])) + multiset(OwnFields([sels[i]]));
  }

  lemma {:induction false} ExpandedThen(fragments: Fragments, sels: seq<Selection>, i: nat,
          expanded0: set<FragmentName>, expanded1: set<FragmentName>, order1: seq<FragmentName>,
          expanded2: set<FragmentName>, order2: seq<FragmentName>)
    requires i < |sels|
    requires Expanded(fragments, sels[..i], expanded0, expanded1, order1)
        && Expanded(fragments, [sels[i]], expanded1, expanded2, order2)
    ensures Expanded(fragments, sels[..i + 1], expanded0, expanded2, order1 + order2)
  {
    hide Spreads, Reachable;
    OwnFieldsPrefix(sels, i);
    ReachableThen(fragments, sels, i, order1, order2);
    assert forall f :: f in order1 + order2 <==> f in order1 || f in order2;
    forall j, k | 0 <= j < k < |order1 + order2|
      ensures (order1 + order2)[j] != (order1 + order2)[k]
    {
      assert j < |order1| ==> order1[j] in order1;
      assert k >= |order1| ==> order2[k - |order1|] in order2;
    }
  }

  lemma {:induction false} ReachableThen(fragments: Fragments, sels: seq<Selection>, i: nat, order1: seq<FragmentName>,
          order2: seq<FragmentName>)
    requires i < |sels|
    requires forall f :: f in order1 ==> Reachable(fragments, sels[..i], f)
    requires forall f :: f in order2 ==> Reachable(fragments, [sels[i]], f)
    ensures forall f :: f in order1 + order2 ==> Reachable(fragments, sels[..i + 1], f)
  {
    hide Spreads;
    OwnFieldsPrefix(sels, i);
  }

  class Walker {
    const fragments: Fragments
    var names: seq<string>
    var expanded: set<FragmentName>

    constructor (fragments: Fragments)
      ensures this.fragments == fragments && names == [] && expanded == {}
    {
      this.fragments := fragments;
      names, expanded := [], {};
    }

    /** appendTopLevelFieldNames; order is the fragments this call expanded. */
    method Append(sels: seq<Selection>) returns (ghost order: seq<FragmentName>)
      requires expanded <= fragments.Keys
      modifies this`names, this`expanded
      ensures names == old(names) + Collect(fragments, sels, old(expanded)).0
          && expanded == Collect(fragments, sels, old(expanded)).1
      ensures Added(fragments, sels, old(names), old(expanded), names, expanded, order)
      decreases fragments.Keys - expanded, sels
    {
      hide Added, OwnFields, Spreads, Collect, CollectOne;
      order := [];
      ghost var names0, expanded0 := names, expanded;
      AddedNothing(fragments, names, expanded);
      assert sels[0..] == sels;
      for i := 0 to |sels|
        invariant expanded0 <= expanded <= fragments.Keys
        invariant names + Collect(fragments, sels[i..], expanded).0 == names0 + Collect(fragments, sels, expanded0).0
        invariant Collect(fragments, sels[i..], expanded).1 == Collect(fragments, sels, expanded0).1
        invariant Added(fragments, sels[..i], names0, expanded0, names, expanded, order)
      {
        ghost var names1, expanded1 := names, expanded;
        var more := Select(sels[i]);
        CollectAt(fragments, sels, i, expanded1);
        assert names1 + (CollectOne(fragments, sels[i], expanded1).0 + Collect(fragments, sels[i + 1..], expanded).0)
            == names + Collect(fragments, sels[i + 1..], expanded).0;
        AddedThen(fragments, sels, i, names0, expanded0, names1, expanded1, order, names, expanded, more);
        AddedGrows(fragments, [sels[i]], names1, expanded1, names, expanded, more);
        order := order + more;
      }
      assert sels[..|sels|] == sels;
      CollectEnd(fragments, sels, expanded);
    }

    /** The body of that loop. */
    method Select(sel: Selection) returns (ghost more: seq<FragmentName>)
      requires expanded <= fragments.Keys
      modifies this`names, this`expanded
      ensures names == old(names) + CollectOne(fragments, sel, old(expanded)).0
          && expanded == CollectOne(fragments, sel, old(expanded)).1
      ensures Added(fragments, [sel], old(names), old(expanded), names, expanded, more)
      decreases fragments.Keys - expanded, sel
    {
      hide Added, Collect;
      more := [];
      ghost var names1, expanded1 := names, expanded;
      match sel {
        case Field(name) =>
          AddedField(fragments, name, names, expanded);
          if !Introspection(name) {
            names := names + [name];
          } else {
            assert names + [] == names;
          }
        case InlineFragment(inner) =>
          more := Append(inner);
          AddedInline(fragments, inner, names1, expanded1, names, expanded, more);
        case FragmentSpread(f) =>
          if f !in fragments || f in expanded {
            assert names + [] == names;
            AddedKnownSpread(fragments, f, names, expanded);
          } else {
            expanded := expanded + {f};
            more := Append(fragments[f]);
            AddedNewSpread(fragments, f, names1, expanded1, names, expanded, more);
            more := [f] + more;
          }
      }
    }
  }

  lemma {:induction false} CollectEnd(fragments: Fragments, sels: seq<Selection>, visited: set<FragmentName>)
    requires visited <= fragments.Keys
    ensures Collect(fragments, sels[|sels|..], visited) == ([], visited)
  {
  }

  lemma {:induction false} AddedGrows(fragments: Fragments, sels: seq<Selection>, names0: seq<string>,
          expanded0: set<FragmentName>, names: seq<string>, expanded: set<FragmentName>, order: seq<FragmentName>)
    requires Added(fragments, sels, names0, expanded0, names, expanded, order)
    ensures expanded0 <= expanded
  {
  }

  /** The fields of a set of fragments, each taken once. */
  ghost function FieldsIn(fragments: Fragments, names: set<FragmentName>): multiset<string>
    requires names <= fragments.Keys
  {
    if names == {} then multiset{}
    else
      var f :| f in names;
      FieldsIn(fragments, names - {f}) + multiset(OwnFields(fragments[f]))
  }

  lemma {:induction false} FieldsInWithout(fragments: Fragments, names: set<FragmentName>, x: FragmentName)
    requires names <= fragments.Keys && x in names
    ensures FieldsIn(fragments, names) == FieldsIn(fragments, names - {x}) + multiset(OwnFields(fragments[x]))
    decreases names
  {
    var f :| f in names && FieldsIn(fragments, names) ==
        FieldsIn(fragments, names - {f}) + multiset(OwnFields(fragments[f]));
    if f != x {
      FieldsInWithout(fragments, names - {f}, x);
      FieldsInWithout(fragments, names - {x}, f);
      assert names - {f} - {x} == names - {x} - {f};
    }
  }

  lemma {:induction false} FieldsInGrows(fragments: Fragments, a: set<FragmentName>, b: set<FragmentName>)
    requires a <= b <= fragments.Keys
    ensures FieldsIn(fragments, a) <= FieldsIn(fragments, b)
    decreases a
  {
    if a != {} {
      var f :| f in a;
      FieldsInWithout(fragments, a, f);
      FieldsInWithout(fragments, b, f);
      FieldsInGrows(fragments, a - {f}, b - {f});
    }
  }

  ghost function Members(order: seq<FragmentName>): set<FragmentName> { set f | f in order }

  lemma {:induction false} FieldsOfDistinct(fragments: Fragments, order: seq<FragmentName>)
    requires Distinct(order) && forall f :: f in order ==> f in fragments
    ensures FieldsOf(fragments, order) == FieldsIn(fragments, Members(order))
  {
    if order != [] {
      var init, last := order[..|order| - 1], order[|order| - 1];
      FieldsOfDistinct(fragments, init);
      FieldsInWithout(fragments, Members(order), last);
      assert Members(order) - {last} == Members(init);
    }
  }

  ghost function ReachableFragments(fragments: Fragments, sels: seq<Selection>): set<FragmentName> {
    set f | f in fragments && Reachable(fragments, sels, f)
  }

  /** TopLevelFieldNames: terminates on cyclic fragments, and yields in document order the
      operation's own fields and those of every reachable fragment, each fragment once. */
  method TopLevelFieldNames(fragments: Fragments, sels: seq<Selection>) returns (names: seq<string>)
    ensures names == Collect(fragments, sels, {}).0
    ensures multiset(names) == multiset(OwnFields(sels)) + FieldsIn(fragments, ReachableFragments(fragments, sels))
  {
    var walker := new Walker(fragments);
    ghost var order := walker.Append(sels);
    names := walker.names;
    forall f | Reachable(fragments, sels, f)
      ensures f in order
    {
      var s :| s in Spreads(sels) && s in fragments && Reaches(SpreadGraph(fragments), s, f);
      ClosedHoldsReachable(SpreadGraph(fragments), walker.expanded, s, f);
    }
    assert Members(order) == ReachableFragments(fragments, sels);
    FieldsOfDistinct(fragments, order);
  }

  /** Whatever spreads what, no more names come out than the document has fields. */
  lemma {:induction false} BoundedByDocument(fragments: Fragments, sels: seq<Selection>, names: seq<string>)
    requires multiset(names) == multiset(OwnFields(sels)) + FieldsIn(fragments, ReachableFragments(fragments, sels))
    ensures |names| <= |OwnFields(sels)| + |FieldsIn(fragments, fragments.Keys)|
  {
    var reached := FieldsIn(fragments, ReachableFragments(fragments, sels));
    FieldsInGrows(fragments, ReachableFragments(fragments, sels), fragments.Keys);
    var extra := FieldsIn(fragments, fragments.Keys) - reached;
    assert FieldsIn(fragments, fragments.Keys) == reached + extra;
    assert |multiset(names)| == |names| && |multiset(OwnFields(sels))| == |OwnFields(sels)|;
  }
}
