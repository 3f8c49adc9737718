/** The order of the rows of one type in an export (exporter.go, nodeLess and compareFieldValues):
    by the identity fields, and by id where those do not differ. */
module RowOrder {
  import opened Records
  import opened Ordering
  import Canonical
  import Graphs

  /** What the comparison sees of a value: a number's value, and the text it prints as. */
  datatype Reading = Number(value: real, text: string) | Worded(text: string)

  /** How values read, and the text of an id. */
  datatype Reader = Reader(value: Value -> Reading, id: Text -> string)

  /** An id is its text. */
  ghost predicate Faithful(r: Reader) { forall a, b :: r.id(a) == r.id(b) ==> a == b }

  function CompareTexts(a: string, b: string): int {
    if Canonical.Less(a, b) then -1 else if a == b then 0 else 1
  }

  /** compareFieldValues: two numbers by value, anything else by the text it prints as. */
  function Compare(a: Reading, b: Reading): int {
    if a.Number? && b.Number? then
      if a.value < b.value then -1 else if a.value > b.value then 1 else 0
    else CompareTexts(a.text, b.text)
  }

  /** The first identity field that differs decides. */
  function CompareBy(r: Reader, fields: seq<Field>, a: Node, b: Node): int {
    if fields == [] then 0
    else
      var first := Compare(r.value(At(a, fields[0])), r.value(At(b, fields[0])));
      if first != 0 then first else CompareBy(r, fields[1..], a, b)
  }

  predicate NodeLess(r: Reader, fields: seq<Field>, a: Node, b: Node) {
    var c := CompareBy(r, fields, a, b);
    if c != 0 then c < 0 else Canonical.Less(r.id(IdOf(a)), r.id(IdOf(b)))
  }

  // ---- What it means ----

  /** Two numbers of one value, or values that print alike. */
  predicate Same(a: Reading, b: Reading) {
    if a.Number? && b.Number? then a.value == b.value else a.text == b.text
  }

  /** Of two numbers the smaller one; otherwise what prints first in the order of strings. */
  ghost predicate Smaller(a: Reading, b: Reading) {
    if a.Number? && b.Number? then a.value < b.value else Canonical.ComesBefore(a.text, b.text)
  }

  /** The first field whose readings differ is k, and puts a first; or none does, and its id does. */
  ghost predicate PrecedesAt(r: Reader, fields: seq<Field>, a: Node, b: Node, k: nat) {
    && k <= |fields|
    && (forall j :: 0 <= j < k ==> Same(r.value(At(a, fields[j])), r.value(At(b, fields[j]))))
    && if k < |fields|
       then
         && !Same(r.value(At(a, fields[k])), r.value(At(b, fields[k])))
         && Smaller(r.value(At(a, fields[k])), r.value(At(b, fields[k])))
       else Canonical.ComesBefore(r.id(IdOf(a)), r.id(IdOf(b)))
  }

  ghost predicate Precedes(r: Reader, fields: seq<Field>, a: Node, b: Node) {
    exists k: nat :: PrecedesAt(r, fields, a, b, k)
  }

  lemma {:induction false} CompareMeans(a: Reading, b: Reading)
    ensures Compare(a, b) < 0 <==> Smaller(a, b)
    ensures Compare(a, b) == 0 <==> Same(a, b)
    ensures Smaller(a, b) ==> !Same(a, b)
  {
    Canonical.LessIsBefore(a.text, b.text);
    Canonical.LessTotal(a.text, b.text);
  }

  /** The first field that differs, if there is one. */
  lemma {:induction false} FirstDifference(r: Reader, fields: seq<Field>, a: Node, b: Node) returns (k: nat)
    ensures k <= |fields|
    ensures forall j :: 0 <= j < k ==> Same(r.value(At(a, fields[j])), r.value(At(b, fields[j])))
    ensures k < |fields| ==>
      && CompareBy(r, fields, a, b) == Compare(r.value(At(a, fields[k])), r.value(At(b, fields[k])))
      && !Same(r.value(At(a, fields[k])), r.value(At(b, fields[k])))
    ensures k == |fields| ==> CompareBy(r, fields, a, b) == 0
  {
    if fields == [] {
      k := 0;
    } else {
      CompareMeans(r.value(At(a, fields[0])), r.value(At(b, fields[0])));
      if Same(r.value(At(a, fields[0])), r.value(At(b, fields[0]))) {
        k := FirstDifference(r, fields[1..], a, b);
        k := k + 1;
      } else {
        k := 0;
      }
    }
  }

  /** The comparison is that order. */
  lemma {:induction false} LessMeans(r: Reader, fields: seq<Field>, a: Node, b: Node)
    ensures NodeLess(r, fields, a, b) <==> Precedes(r, fields, a, b)
  {
    hide Compare, CompareBy, Same, Smaller;
    var k := FirstDifference(r, fields, a, b);
    Canonical.LessIsBefore(r.id(IdOf(a)), r.id(IdOf(b)));
    if k < |fields| {
      CompareMeans(r.value(At(a, fields[k])), r.value(At(b, fields[k])));
    }
    assert NodeLess(r, fields, a, b) <==> PrecedesAt(r, fields, a, b, k);
    assert forall other: nat :: PrecedesAt(r, fields, a, b, other) ==> other == k;
  }

  /** nodeLess. */
  method RowLess(r: Reader, fields: seq<Field>, a: Node, b: Node) returns (less: bool)
    ensures less == NodeLess(r, fields, a, b) == Precedes(r, fields, a, b)
  {
    LessMeans(r, fields, a, b);
    for i := 0 to |fields|
      invariant CompareBy(r, fields, a, b) == CompareBy(r, fields[i..], a, b)
    {
      assert fields[i..][0] == fields[i] && fields[i..][1..] == fields[i + 1..];
      var c := Compare(r.value(At(a, fields[i])), r.value(At(b, fields[i])));
      if c != 0 {
        return c < 0;
      }
    }
    less := Canonical.Less(r.id(IdOf(a)), r.id(IdOf(b)));
  }

  // ---- When it is an order ----

  /** In each field these rows all hold numbers, or none does. */
  ghost predicate Alike(r: Reader, fields: seq<Field>, rows: set<Node>) {
    forall f, a, b :: f in fields && a in rows && b in rows ==>
      (r.value(At(a, f)).Number? <==> r.value(At(b, f)).Number?)
  }

  lemma {:induction false} TextsFlip(a: string, b: string)
    ensures CompareTexts(a, b) == -CompareTexts(b, a)
  {
    Canonical.LessTotal(a, b);
  }

  lemma {:induction false} CompareFlip(a: Reading, b: Reading)
    ensures Compare(a, b) == -Compare(b, a)
  {
    TextsFlip(a.text, b.text);
  }

  lemma {:induction false} CompareByFlip(r: Reader, fields: seq<Field>, a: Node, b: Node)
    ensures CompareBy(r, fields, a, b) == -CompareBy(r, fields, b, a)
  {
    if fields != [] {
      CompareFlip(r.value(At(a, fields[0])), r.value(At(b, fields[0])));
      CompareByFlip(r, fields[1..], a, b);
    }
  }

  /** Of two rows with different ids exactly one is less, whatever they hold. */
  lemma {:induction false} NodeLessTotal(r: Reader, fields: seq<Field>, a: Node, b: Node)
    requires Faithful(r)
    ensures IdOf(a) != IdOf(b) ==> (NodeLess(r, fields, a, b) <==> !NodeLess(r, fields, b, a))
    ensures !NodeLess(r, fields, a, a) && !(NodeLess(r, fields, a, b) && NodeLess(r, fields, b, a))
  {
    CompareByFlip(r, fields, a, b);
    CompareByFlip(r, fields, a, a);
    Canonical.LessTotal(r.id(IdOf(a)), r.id(IdOf(b)));
    Canonical.LessTotal(r.id(IdOf(a)), r.id(IdOf(a)));
  }

  lemma {:induction false} TextsTransitive(a: string, b: string, c: string)
    requires CompareTexts(a, b) <= 0 && CompareTexts(b, c) <= 0
    ensures CompareTexts(a, c) <= 0
    ensures CompareTexts(a, c) == 0 ==> CompareTexts(a, b) == 0 && CompareTexts(b, c) == 0
  {
    Canonical.LessTotal(a, b);
    Canonical.LessTotal(b, c);
    Canonical.LessTotal(a, c);
    if Canonical.Less(a, b) && Canonical.Less(b, c) {
      Canonical.LessTransitive(a, b, c);
    }
  }

  lemma {:induction false} CompareTransitive(a: Reading, b: Reading, c: Reading)
    requires a.Number? == b.Number? == c.Number? && Compare(a, b) <= 0 && Compare(b, c) <= 0
    ensures Compare(a, c) <= 0 && (Compare(a, c) == 0 ==> Compare(a, b) == 0 && Compare(b, c) == 0)
  {
    if a.Worded? {
      TextsTransitive(a.text, b.text, c.text);
    }
  }

  lemma {:induction false} CompareByTransitive(r: Reader, fields: seq<Field>, a: Node, b: Node, c: Node)
    requires Alike(r, fields, {a, b, c}) && CompareBy(r, fields, a, b) <= 0 && CompareBy(r, fields, b, c) <= 0
    ensures CompareBy(r, fields, a, c) <= 0
    ensures CompareBy(r, fields, a, c) == 0 ==> CompareBy(r, fields, a, b) == 0 && CompareBy(r, fields, b, c) == 0
  {
    if fields != [] {
      var x, y, z := r.value(At(a, fields[0])), r.value(At(b, fields[0])), r.value(At(c, fields[0]));
      assert a in {a, b, c} && b in {a, b, c} && c in {a, b, c};
      assert x.Number? == y.Number? == z.Number?;
      CompareTransitive(x, y, z);
      if Compare(x, z) == 0 {
        CompareByTransitive(r, fields[1..], a, b, c);
      }
    }
  }

  lemma {:induction false} NodeLessTransitive(r: Reader, fields: seq<Field>, a: Node, b: Node, c: Node)
    requires Alike(r, fields, {a, b, c}) && NodeLess(r, fields, a, b) && NodeLess(r, fields, b, c)
    ensures NodeLess(r, fields, a, c)
  {
    CompareByTransitive(r, fields, a, b, c);
    if CompareBy(r, fields, a, c) == 0 {
      Canonical.LessTransitive(r.id(IdOf(a)), r.id(IdOf(b)), r.id(IdOf(c)));
    }
  }

  /** Where one field holds numbers and texts it need not be: the number 9 is below the number 10, the
      number 10 prints below the text 5, and that is below what the number 9 prints as. */
  lemma {:induction false} MixedValuesCycle(id: Text -> string, f: Field, nine: Value, ten: Value, five: Value)
    requires f != Id && nine != ten && ten != five && five != nine && forall a, b :: id(a) == id(b) ==> a == b
    ensures exists r, a, b, c ::
      Faithful(r) && NodeLess(r, [f], a, b) && NodeLess(r, [f], b, c) && NodeLess(r, [f], c, a)
  {
    var read := (v: Value) =>
      if v == nine then Number(9.0, "9") else if v == ten then Number(10.0, "10") else Worded("5");
    var r := Reader(read, id);
    assert Faithful(r);
    var a, b, c := map[f := nine], map[f := ten], map[f := five];
    assert [f][1..] == [];
    assert Canonical.Less("10", "5") && Canonical.Less("5", "9");
    assert CompareBy(r, [f], a, b) == -1 && CompareBy(r, [f], b, c) == -1 && CompareBy(r, [f], c, a) == -1;
    assert NodeLess(r, [f], a, b) && NodeLess(r, [f], b, c) && NodeLess(r, [f], c, a);
  }

  // ---- Sorting ----

  predicate Ascending(r: Reader, fields: seq<Field>, rows: seq<Node>) {
    forall i, j :: 0 <= i < j < |rows| ==> NodeLess(r, fields, rows[i], rows[j])
  }

  /** There is at most one such listing, whatever the rows hold: the listing order of the server
      leaves no trace in an export that has one. */
  lemma {:induction false} AscendingUnique(r: Reader, fields: seq<Field>, a: seq<Node>, b: seq<Node>)
    requires Faithful(r) && Ascending(r, fields, a) && Ascending(r, fields, b)
    requires forall row :: row in a <==> row in b
    ensures a == b
  {
    hide NodeLess;
    assert a != [] ==> a[0] in b;
    assert b != [] ==> b[0] in a;
    if a != [] {
      SameFirst(r, fields, a, b);
      forall row
        ensures row in a[1..] <==> row in b[1..]
      {
        InRest(r, fields, a, row);
        InRest(r, fields, b, row);
      }
      AscendingUnique(r, fields, a[1..], b[1..]);
      assert a == [a[0]] + a[1..] && b == [b[0]] + b[1..];
    }
  }

  lemma {:induction false} SameFirst(r: Reader, fields: seq<Field>, a: seq<Node>, b: seq<Node>)
    requires Faithful(r) && Ascending(r, fields, a) && Ascending(r, fields, b)
    requires a != [] && b != [] && a[0] in b && b[0] in a
    ensures a[0] == b[0]
  {
    hide NodeLess;
    var i :| 0 <= i < |b| && b[i] == a[0];
    var j :| 0 <= j < |a| && a[j] == b[0];
    NodeLessTotal(r, fields, a[0], b[0]);
  }

  lemma {:induction false} InRest(r: Reader, fields: seq<Field>, rows: seq<Node>, row: Node)
    requires Faithful(r) && Ascending(r, fields, rows) && rows != []
    ensures row in rows[1..] <==> row in rows && row != rows[0]
  {
    hide NodeLess;
    NodeLessTotal(r, fields, rows[0], rows[0]);
    if row in rows && row != rows[0] {
      var i :| 0 <= i < |rows| && rows[i] == row;
      assert rows[1..][i - 1] == row;
    }
  }

  /** sort.SliceStable: the rows, ascending where their values can be compared. */
  method SortRows(r: Reader, fields: seq<Field>, rows: seq<Node>) returns (sorted: seq<Node>)
    requires Faithful(r) && DistinctIds(rows)
    ensures DistinctIds(sorted) && forall row :: row in sorted <==> row in rows
    ensures Alike(r, fields, set row | row in rows) ==> Ascending(r, fields, sorted)
    ensures Alike(r, fields, set row | row in rows) ==>
      forall i, j :: 0 <= i < j < |sorted| ==> Precedes(r, fields, sorted[i], sorted[j])
  {
    hide NodeLess, Precedes;
    sorted := [];
    ghost var alike := Alike(r, fields, set row | row in rows);
    for i := 0 to |rows|
      invariant DistinctIds(sorted) && forall row :: row in sorted <==> row in rows[..i]
      invariant alike ==> Ascending(r, fields, sorted)
    {
      var row := rows[i];
      var k := |sorted|;
      ghost var before := sorted;
      while k > 0
        invariant 0 <= k <= |sorted|
        invariant forall j :: k <= j < |sorted| ==> NodeLess(r, fields, row, sorted[j])
      {
        var less := RowLess(r, fields, row, sorted[k - 1]);
        if !less {
          break;
        }
        k := k - 1;
      }
      NewId(rows, i, sorted);
      if k > 0 {
        NodeLessTotal(r, fields, row, sorted[k - 1]);
      }
      if alike {
        InsertAscends(r, fields, rows, sorted, row, k);
      }
      sorted := sorted[..k] + [row] + sorted[k..];
      Inserted(before, row, k);
      assert rows[..i + 1] == rows[..i] + [row];
    }
    assert rows[..|rows|] == rows;
    forall i, j | 0 <= i < j < |sorted|
      ensures NodeLess(r, fields, sorted[i], sorted[j]) == Precedes(r, fields, sorted[i], sorted[j])
    {
      LessMeans(r, fields, sorted[i], sorted[j]);
    }
  }

  lemma {:induction false} NewId(rows: seq<Node>, i: nat, sorted: seq<Node>)
    requires DistinctIds(rows) && i < |rows| && forall row :: row in sorted <==> row in rows[..i]
    ensures forall j :: 0 <= j < |sorted| ==> IdOf(sorted[j]) != IdOf(rows[i])
    ensures IdOf(rows[i]) != EMPTY
  {
    forall j | 0 <= j < |sorted|
      ensures IdOf(sorted[j]) != IdOf(rows[i])
    {
      assert sorted[j] in rows[..i];
      var k :| 0 <= k < i && rows[..i][k] == sorted[j];
      assert rows[k] == sorted[j];
    }
  }

  lemma {:induction false} Inserted(sorted: seq<Node>, row: Node, k: nat)
    requires k <= |sorted| && DistinctIds(sorted) && IdOf(row) != EMPTY
    requires forall j :: 0 <= j < |sorted| ==> IdOf(sorted[j]) != IdOf(row)
    ensures DistinctIds(sorted[..k] + [row] + sorted[k..])
    ensures forall x :: x in sorted[..k] + [row] + sorted[k..] <==> x in sorted || x == row
  {
    assert sorted == sorted[..k] + sorted[k..];
  }

  lemma {:induction false} InsertAscends(r: Reader, fields: seq<Field>, rows: seq<Node>, sorted: seq<Node>, row: Node,
          k: nat)
    requires Alike(r, fields, set x | x in rows) && row in rows && forall x :: x in sorted ==> x in rows
    requires Ascending(r, fields, sorted) && k <= |sorted|
    requires forall j :: k <= j < |sorted| ==> NodeLess(r, fields, row, sorted[j])
    requires k > 0 ==> NodeLess(r, fields, sorted[k - 1], row)
    ensures Ascending(r, fields, sorted[..k] + [row] + sorted[k..])
  {
    hide NodeLess, Alike;
    forall i | 0 <= i < k
      ensures NodeLess(r, fields, sorted[i], row)
    {
      if i < k - 1 {
        assert sorted[i] in rows && sorted[k - 1] in rows;
        AlikeAmong(r, fields, rows, sorted[i], sorted[k - 1], row);
        NodeLessTransitive(r, fields, sorted[i], sorted[k - 1], row);
      }
    }
  }

  lemma {:induction false} AlikeAmong(r: Reader, fields: seq<Field>, rows: seq<Node>, a: Node, b: Node, c: Node)
    requires Alike(r, fields, set x | x in rows) && a in rows && b in rows && c in rows
    ensures Alike(r, fields, {a, b, c})
  {
  }

  // ---- The export ----

  ghost predicate EachAscends(r: Reader, descs: map<TypeName, Descriptor>, sorted: map<TypeName, seq<Node>>) {
    forall t :: t in sorted && t in descs ==> Ascending(r, descs[t].identityFields, sorted[t])
  }

  /** The rows of every listed type, sorted. */
  method SortListing(r: Reader, listing: Listing) returns (sorted: map<TypeName, seq<Node>>)
    requires Faithful(r) && listing.Valid()
    ensures SortsRows(sorted, listing)
    ensures
      (forall t :: t in listing.nodes ==>
        Alike(r, listing.descs[t].identityFields, set row | row in listing.nodes[t])) ==>
        EachAscends(r, listing.descs, sorted)
  {
    hide Alike, Ascending;
    sorted := map[];
    var left := listing.nodes.Keys;
    while left != {}
      invariant left <= listing.nodes.Keys && sorted.Keys == listing.nodes.Keys - left
      invariant forall t :: t in sorted ==>
        && DistinctIds(sorted[t]) && (forall row :: row in sorted[t] <==> row in listing.nodes[t])
        && (Alike(r, listing.descs[t].identityFields, set row | row in listing.nodes[t]) ==>
            Ascending(r, listing.descs[t].identityFields, sorted[t]))
      decreases left
    {
      var t :| t in left;
      var rows := SortRows(r, listing.descs[t].identityFields, listing.nodes[t]);
      sorted := sorted[t := rows];
      left := left - {t};
    }
  }

  /** Two servers that list the same rows, in whatever order, are exported in the same order. */
  lemma {:induction false} SortedAlike(r: Reader, a: Listing, b: Listing, sortedA: map<TypeName, seq<Node>>,
          sortedB: map<TypeName, seq<Node>>)
    requires Faithful(r) && a.descs == b.descs && a.Valid() && b.Valid()
    requires forall t, row :: t in a.nodes ==> (row in a.nodes[t] <==> row in b.nodes[t])
    requires SortsRows(sortedA, a) && EachAscends(r, a.descs, sortedA)
    requires SortsRows(sortedB, b) && EachAscends(r, b.descs, sortedB)
    ensures sortedA == sortedB
  {
    hide Ascending, NodeLess;
    forall t | t in sortedA
      ensures t in sortedB && sortedA[t] == sortedB[t]
    {
      AscendingUnique(r, a.descs[t].identityFields, sortedA[t], sortedB[t]);
    }
  }

  /** Where types come out block by block, the rows of each ascend by their identity fields. */
  lemma {:induction false} ExportAscends(r: Reader, descs: map<TypeName, Descriptor>, types: seq<TypeName>,
          sorted: map<TypeName, seq<Node>>, i: nat, j: nat)
    requires Graphs.Distinct(types) && (forall t :: t in types ==> t in sorted) && sorted.Keys <= descs.Keys
    requires EachAscends(r, descs, sorted) && i < j < |Concatenated(types, sorted)|
    ensures var items := Concatenated(types, sorted);
      items[i].typ == items[j].typ ==>
        items[i].typ in descs && Precedes(r, descs[items[i].typ].identityFields, items[i].node, items[j].node)
    decreases |types|
  {
    hide NodeLess, Precedes;
    var n := |types| - 1;
    var first, last := Concatenated(types[..n], sorted), ItemsOf(types[n], sorted[types[n]]);
    if j < |first| {
      ExportAscends(r, descs, types[..n], sorted, i, j);
    } else if i < |first| {
      TypesOfBlocks(types[..n], sorted, i);
    } else {
      LessMeans(r, descs[types[n]].identityFields, sorted[types[n]][i - |first|], sorted[types[n]][j - |first|]);
    }
  }

  lemma {:induction false} TypesOfBlocks(types: seq<TypeName>, sorted: map<TypeName, seq<Node>>, i: nat)
    requires (forall t :: t in types ==> t in sorted) && i < |Concatenated(types, sorted)|
    ensures Concatenated(types, sorted)[i].typ in types
  {
    if types != [] {
      var n := |types| - 1;
      if i < |Concatenated(types[..n], sorted)| {
        TypesOfBlocks(types[..n], sorted, i);
      }
    }
  }
}
