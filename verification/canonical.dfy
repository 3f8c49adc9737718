/** The canonical JSON encoding behind an idempotency checksum (idempotency/checksum.go), and why
    the checksum's input identifies the request.

    Strings are sequences of Unicode code points; their UTF-8 form is in one-to-one correspondence. */
module Canonical {
  import opened Wrappers

  type Text = seq<char>

  /** A decoded variable: NilArray and NilObject are the nil slice and the nil map, Unmarshalable
      a value json.Marshal refuses.  A number is the token it is printed as. */
  datatype Json =
    | Null | Bool(b: bool) | Number(token: Text) | String(s: Text)
    | NilArray | Array(elems: seq<Json>)
    | NilObject | Object(members: map<Text, Json>)
    | Unmarshalable

  // ---- The order of keys (sort.Strings) ----

  predicate Less(a: Text, b: Text) {
    if b == [] then false
    else if a == [] then true
    else a[0] < b[0] || (a[0] == b[0] && Less(a[1..], b[1..]))
  }

  /** a comes before b: where they first differ it has the smaller character, or it ends there. */
  ghost predicate ComesBefore(a: Text, b: Text) {
    exists k: nat :: DiffersAt(a, b, k)
  }

  predicate DiffersAt(a: Text, b: Text, k: nat) {
    k <= |a| && k < |b| && a[..k] == b[..k] && (k == |a| || a[k] < b[k])
  }

  lemma {:induction false} LessIsBefore(a: Text, b: Text)
    ensures Less(a, b) <==> ComesBefore(a, b)
  {
    if a != [] && b != [] {
      LessIsBefore(a[1..], b[1..]);
      if a[0] < b[0] {
        assert DiffersAt(a, b, 0);
      } else if a[0] == b[0] {
        SameHead(a, b);
      }
    } else if b != [] {
      assert DiffersAt(a, b, 0);
    }
  }

  lemma {:induction false} SameHead(a: Text, b: Text)
    requires a != [] && b != [] && a[0] == b[0]
    ensures ComesBefore(a, b) <==> ComesBefore(a[1..], b[1..])
  {
    if k: nat :| DiffersAt(a, b, k) {
      assert a[1..][..k - 1] == a[..k][1..] && b[1..][..k - 1] == b[..k][1..];
      assert DiffersAt(a[1..], b[1..], k - 1);
    }
    if k: nat :| DiffersAt(a[1..], b[1..], k) {
      assert a[..k + 1] == [a[0]] + a[1..][..k] && b[..k + 1] == [b[0]] + b[1..][..k];
      assert DiffersAt(a, b, k + 1);
    }
  }

  lemma {:induction false} LessTotal(a: Text, b: Text)
    ensures Less(a, b) || Less(b, a) || a == b
    ensures !(Less(a, b) && Less(b, a)) && !Less(a, a)
  {
    if a != [] && b != [] {
      LessTotal(a[1..], b[1..]);
      if a[0] == b[0] && a[1..] == b[1..] {
        assert a == [a[0]] + a[1..] && b == [b[0]] + b[1..];
      }
    }
    if a != [] {
      LessTotal(a[1..], a[1..]);
    }
  }

  lemma {:induction false} LessTransitive(a: Text, b: Text, c: Text)
    requires Less(a, b) && Less(b, c)
    ensures Less(a, c)
  {
    if a != [] && a[0] == b[0] && b[0] == c[0] {
      LessTransitive(a[1..], b[1..], c[1..]);
    }
  }

  predicate Sorted(keys: seq<Text>) {
    forall i, j :: 0 <= i < j < |keys| ==> Less(keys[i], keys[j])
  }

  /** keys lists exactly the members' names, in increasing order. */
  ghost predicate Lists(keys: seq<Text>, names: set<Text>) {
    Sorted(keys) && forall k :: k in keys <==> k in names
  }

  lemma {:induction false} ListsUnique(a: seq<Text>, b: seq<Text>, names: set<Text>)
    requires Lists(a, names) && Lists(b, names)
    ensures a == b
  {
    if a != [] {
      assert a[0] in b;
    }
    if b != [] {
      assert b[0] in a;
    }
    if a != [] {
      var i :| 0 <= i < |b| && b[i] == a[0];
      var j :| 0 <= j < |a| && a[j] == b[0];
      LessTotal(a[0], b[0]);
      assert a[0] == b[0];
      RestLists(a, names);
      RestLists(b, names);
      ListsUnique(a[1..], b[1..], names - {a[0]});
      assert a == [a[0]] + a[1..] && b == [b[0]] + b[1..];
    }
  }

  lemma {:induction false} RestLists(keys: seq<Text>, names: set<Text>)
    requires Lists(keys, names) && keys != []
    ensures Lists(keys[1..], names - {keys[0]})
  {
    forall k
      ensures k in keys[1..] <==> k in names - {keys[0]}
    {
      LessTotal(keys[0], keys[0]);
      if k in names && k != keys[0] {
        var i :| 0 <= i < |keys| && keys[i] == k;
        assert keys[1..][i - 1] == k;
      }
    }
  }

  function Insert(k: Text, keys: seq<Text>): seq<Text> {
    if keys == [] then [k]
    else if Less(k, keys[0]) then [k] + keys
    else [keys[0]] + Insert(k, keys[1..])
  }

  lemma {:induction false} InsertLists(k: Text, keys: seq<Text>, names: set<Text>)
    requires Lists(keys, names) && k !in names
    ensures Lists(Insert(k, keys), names + {k})
  {
    if keys != [] {
      RestLists(keys, names);
      assert keys[0] in names;
      if Less(k, keys[0]) {
        forall i | 0 <= i < |keys|
          ensures Less(k, keys[i])
        {
          if i > 0 {
            LessTransitive(k, keys[0], keys[i]);
          }
        }
        assert forall x :: x in [k] + keys <==> x == k || x in keys;
      } else {
        LessTotal(k, keys[0]);
        var rest := Insert(k, keys[1..]);
        InsertLists(k, keys[1..], names - {keys[0]});
        forall i | 0 <= i < |rest|
          ensures Less(keys[0], rest[i])
        {
          if rest[i] != k {
            assert rest[i] in keys[1..];
          }
        }
        assert forall x :: x in [keys[0]] + rest <==> x == keys[0] || x in rest;
      }
    }
  }

  /** The names in increasing order, picked one by one in any order. */
  ghost function SortedKeys(names: set<Text>): (keys: seq<Text>)
    ensures Lists(keys, names)
  {
    if names == {} then []
    else
      var k :| k in names;
      InsertLists(k, SortedKeys(names - {k}), names - {k});
      assert names - {k} + {k} == names;
      Insert(k, SortedKeys(names - {k}))
  }

  // ---- Strings (json.Marshal of a string, HTML escaping on) ----

  const HEX := "0123456789abcdef"

  function Escape(c: char): Text {
    if c == '\"' || c == '\\' then ['\\', c]
    else if c == '\n' then "\\n"
    else if c == '\r' then "\\r"
    else if c == '\t' then "\\t"
    else if c == '\U{08}' then "\\b"
    else if c == '\U{0C}' then "\\f"
    else if c < ' ' || c == '<' || c == '>' || c == '&' then
      ['\\', 'u', '0', '0', HEX[c as int / 16], HEX[c as int % 16]]
    else if c == '\U{2028}' then "\\u2028"
    else if c == '\U{2029}' then "\\u2029"
    else [c]
  }

  function WriteEscaped(s: Text, rest: Text): Text {
    if s == [] then rest else Escape(s[0]) + WriteEscaped(s[1..], rest)
  }

  /** The string as a JSON literal, followed by rest. */
  function WriteString(s: Text, rest: Text): Text { ['\"'] + WriteEscaped(s, ['\"'] + rest) }

  // ---- Numbers ----

  predicate NumberChar(c: char) { '0' <= c <= '9' || c == '+' || c == '-' || c == '.' || c == 'e' || c == 'E' }

  predicate ValidNumber(token: Text) {
    token != [] && ('0' <= token[0] <= '9' || token[0] == '-') && forall i :: 0 <= i < |token| ==> NumberChar(token[i])
  }

  // ---- The encoder ----

  /** json.Marshal refuses nothing in it. */
  predicate Marshalable(v: Json) {
    match v
    case Number(token) => ValidNumber(token)
    case Array(elems) => forall i :: 0 <= i < |elems| ==> Marshalable(elems[i])
    case Object(members) => forall k :: k in members ==> Marshalable(members[k])
    case Unmarshalable => false
    case _ => true
  }

  /** The canonical encoding of v, followed by rest. */
  ghost function Write(v: Json, rest: Text): Text
    decreases v
  {
    match v
    case Null => "null" + rest
    case Bool(b) => (if b then "true" else "false") + rest
    case Number(token) => token + rest
    case String(s) => WriteString(s, rest)
    case NilArray => "null" + rest
    case Array(elems) => ['['] + WriteElems(elems, [']'] + rest)
    case NilObject => "null" + rest
    case Object(members) => ['{'] + WriteMembers(v, SortedKeys(members.Keys), ['}'] + rest)
    case Unmarshalable => rest
  }

  ghost function WriteElems(elems: seq<Json>, rest: Text): Text
    decreases elems
  {
    if elems == [] then rest
    else Write(elems[0], if |elems| > 1 then [','] + WriteElems(elems[1..], rest) else rest)
  }

  ghost function WriteMembers(v: Json, keys: seq<Text>, rest: Text): Text
    requires v.Object? && forall k :: k in keys ==> k in v.members
    decreases v, |keys|
  {
    if keys == [] then rest
    else WriteString(keys[0], [':'] + Write(v.members[keys[0]],
           if |keys| > 1 then [','] + WriteMembers(v, keys[1..], rest) else rest))
  }

  /** canonicalJSON: an encoding, or an error. */
  ghost function Encode(v: Json): Option<Text> {
    if Marshalable(v) then Some(Write(v, [])) else None
  }

  // ---- What the encoding does not distinguish ----

  /** A nil slice and a nil map are null. */
  function Norm(v: Json): Json {
    match v
    case NilArray => Null
    case NilObject => Null
    case Array(elems) => Array(NormElems(elems))
    case Object(members) => Object(map k | k in members :: Norm(members[k]))
    case _ => v
  }

  function NormElems(elems: seq<Json>): seq<Json> {
    if elems == [] then [] else [Norm(elems[0])] + NormElems(elems[1..])
  }

  // ---- Strings can be read back ----

  lemma {:induction false} HexUnique(a: nat, b: nat)
    requires a < 16 && b < 16 && HEX[a] == HEX[b]
    ensures a == b
  {
  }

  /** An escaped character ends where it ends, and tells which character it was. */
  lemma {:induction false} EscapeUnique(c: char, d: char, r: Text, q: Text)
    requires Escape(c) + r == Escape(d) + q
    ensures c == d && r == q
  {
    hide Escape;
    var x, y := Escape(c), Escape(d);
    EscapeShape(c);
    EscapeShape(d);
    assert (x + r)[0] == x[0] && (y + q)[0] == y[0];
    assert |x| > 1 ==> (x + r)[1] == x[1];
    assert |y| > 1 ==> (y + q)[1] == y[1];
    assert x == (x + r)[..|x|] && y == (y + q)[..|y|];
    assert (x + r)[|x|..] == r && (y + q)[|y|..] == q;
    EscapeInjective(c, d);
  }

  /** The first two characters of an escape tell its length. */
  lemma {:induction false} EscapeShape(c: char)
    ensures var e := Escape(c);
      || (|e| == 1 && e[0] != '\\')
      || (|e| == 2 && e[0] == '\\' && e[1] != 'u')
      || (|e| == 6 && e[0] == '\\' && e[1] == 'u')
  {
  }

  lemma {:induction false} EscapeInjective(c: char, d: char)
    requires Escape(c) == Escape(d)
    ensures c == d
  {
    if |Escape(c)| == 6 {
      SixUnique(c, d);
    }
  }

  lemma {:induction false} SixUnique(c: char, d: char)
    requires |Escape(c)| == |Escape(d)| == 6
    requires Escape(c)[2] == Escape(d)[2] && Escape(c)[4] == Escape(d)[4] && Escape(c)[5] == Escape(d)[5]
    ensures c == d
  {
    hide Escape;
    SixShape(c);
    SixShape(d);
    if Escape(c)[2] == '0' {
      HexUnique(c as int / 16, d as int / 16);
      HexUnique(c as int % 16, d as int % 16);
    }
  }

  lemma {:induction false} SixShape(c: char)
    requires |Escape(c)| == 6
    ensures var e := Escape(c);
      if e[2] == '0' then c as int < 256 && e[4] == HEX[c as int / 16] && e[5] == HEX[c as int % 16]
      else c == if e[5] == '8' then '\U{2028}' else '\U{2029}'
  {
    hide HEX;
  }

  lemma {:induction false} EscapedUnique(s: Text, t: Text, r: Text, q: Text)
    requires WriteEscaped(s, ['\"'] + r) == WriteEscaped(t, ['\"'] + q)
    ensures s == t && r == q
  {
    hide Escape;
    EscapedOpens(s, ['\"'] + r);
    EscapedOpens(t, ['\"'] + q);
    if s == [] {
      assert WriteEscaped(s, ['\"'] + r)[1..] == r;
      assert WriteEscaped(t, ['\"'] + q)[1..] == q;
    } else {
      EscapeUnique(s[0], t[0], WriteEscaped(s[1..], ['\"'] + r), WriteEscaped(t[1..], ['\"'] + q));
      EscapedUnique(s[1..], t[1..], r, q);
      assert s == [s[0]] + s[1..] && t == [t[0]] + t[1..];
    }
  }

  lemma {:induction false} EscapedOpens(s: Text, rest: Text)
    ensures s != [] ==> WriteEscaped(s, rest) != [] && WriteEscaped(s, rest)[0] != '\"'
  {
    if s != [] {
      assert Escape(s[0]) != [] && Escape(s[0])[0] != '\"';
    }
  }

  lemma {:induction false} StringUnique(s: Text, t: Text, r: Text, q: Text)
    requires WriteString(s, r) == WriteString(t, q)
    ensures s == t && r == q
  {
    assert WriteString(s, r)[1..] == WriteEscaped(s, ['\"'] + r);
    assert WriteString(t, q)[1..] == WriteEscaped(t, ['\"'] + q);
    EscapedUnique(s, t, r, q);
  }

  /** What may follow a value: the end, or something that is no part of a number. */
  predicate Delimited(r: Text) { r == [] || !NumberChar(r[0]) }

  lemma {:induction false} NumberUnique(s: Text, t: Text, r: Text, q: Text)
    requires (forall c :: c in s ==> NumberChar(c)) && (forall c :: c in t ==> NumberChar(c))
    requires Delimited(r) && Delimited(q) && s + r == t + q
    ensures s == t && r == q
  {
    NumberNotLonger(s, t, r, q);
    NumberNotLonger(t, s, q, r);
    assert (s + r)[..|s|] == s && (t + q)[..|t|] == t;
    assert (s + r)[|s|..] == r && (t + q)[|t|..] == q;
  }

  lemma {:induction false} NumberNotLonger(s: Text, t: Text, r: Text, q: Text)
    requires (forall c :: c in t ==> NumberChar(c)) && Delimited(r) && s + r == t + q
    ensures |s| >= |t|
  {
    assert forall i :: 0 <= i < |t| ==> (t + q)[i] == t[i];
    if |s| < |t| {
      NextIsRest(s, r);
    }
  }

  lemma {:induction false} NextIsRest(s: Text, r: Text)
    ensures |s + r| == |s| + |r| && (r != [] ==> (s + r)[|s|] == r[0])
  {
  }

  // ---- Values can be told apart ----

  /** The first character of an encoding tells the kind of value. */
  predicate Opens(v: Json, c: char) {
    match v
    case Bool(b) => c == (if b then 't' else 'f')
    case Number(_) => '0' <= c <= '9' || c == '-'
    case String(_) => c == '\"'
    case Array(_) => c == '['
    case Object(_) => c == '{'
    case _ => c == 'n'
  }

  lemma {:induction false} WriteOpens(v: Json, rest: Text)
    requires Marshalable(v)
    ensures Write(v, rest) != [] && Opens(v, Write(v, rest)[0])
  {
  }

  /** Two encodings in the same place are encodings of the same value. */
  lemma {:induction false} WriteUnique(v: Json, w: Json, r: Text, q: Text)
    requires Marshalable(v) && Marshalable(w) && Delimited(r) && Delimited(q)
    requires Write(v, r) == Write(w, q)
    ensures Norm(v) == Norm(w) && r == q
    decreases v
  {
    WriteOpens(v, r);
    WriteOpens(w, q);
    match v
    case Number(s) =>
      NumberUnique(s, w.token, r, q);
    case String(s) =>
      StringUnique(s, w.s, r, q);
    case Array(elems) =>
      assert Write(v, r)[1..] == WriteElems(elems, [']'] + r);
      assert Write(w, q)[1..] == WriteElems(w.elems, [']'] + q);
      ElemsUnique(elems, w.elems, r, q);
    case Object(members) =>
      ObjectUnique(v, w, r, q);
    case Bool(_) =>
      SameWord(if v.b then "true" else "false", r, q);
    case _ =>
      SameWord("null", r, q);
  }

  lemma {:induction false} SameWord(word: Text, r: Text, q: Text)
    requires word + r == word + q
    ensures r == q
  {
    assert (word + r)[|word|..] == r && (word + q)[|word|..] == q;
  }

  lemma {:induction false} ElemsUnique(a: seq<Json>, b: seq<Json>, r: Text, q: Text)
    requires (forall i :: 0 <= i < |a| ==> Marshalable(a[i])) && (forall i :: 0 <= i < |b| ==> Marshalable(b[i]))
    requires WriteElems(a, [']'] + r) == WriteElems(b, [']'] + q)
    ensures NormElems(a) == NormElems(b) && r == q
    decreases a
  {
    var r', q' := [']'] + r, [']'] + q;
    var x := if |a| > 1 then [','] + WriteElems(a[1..], r') else r';
    var y := if |b| > 1 then [','] + WriteElems(b[1..], q') else q';
    if a != [] {
      WriteOpens(a[0], x);
    }
    if b != [] {
      WriteOpens(b[0], y);
    }
    if a == [] {
      assert r'[1..] == r && q'[1..] == q;
    } else {
      WriteUnique(a[0], b[0], x, y);
      assert x[1..] == if |a| > 1 then WriteElems(a[1..], r') else r;
      assert y[1..] == if |b| > 1 then WriteElems(b[1..], q') else q;
      if |a| > 1 {
        ElemsUnique(a[1..], b[1..], r, q);
      }
    }
  }

  lemma {:induction false} ObjectBody(v: Json, r: Text)
    requires v.Object?
    ensures Write(v, r)[1..] == WriteMembers(v, SortedKeys(v.members.Keys), ['}'] + r)
  {
    hide WriteMembers;
  }

  lemma {:induction false} ObjectUnique(v: Json, w: Json, r: Text, q: Text)
    requires v.Object? && w.Object? && Marshalable(v) && Marshalable(w)
    requires Write(v, r) == Write(w, q)
    ensures Norm(v) == Norm(w) && r == q
    decreases v, 1
  {
    hide WriteMembers, WriteString, Sorted, WriteElems, Marshalable, SortedKeys;
    var ks, ls := SortedKeys(v.members.Keys), SortedKeys(w.members.Keys);
    ObjectBody(v, r);
    ObjectBody(w, q);
    MembersUnique(v, w, ks, ls, r, q);
    assert v.members.Keys == w.members.Keys by {
      assert forall k :: k in v.members.Keys <==> k in ks;
    }
    assert Norm(v).members == Norm(w).members;
  }

  /** What follows the value of the first key. */
  ghost function AfterFirst(v: Json, keys: seq<Text>, rest: Text): Text
    requires v.Object? && keys != [] && forall k :: k in keys ==> k in v.members
  {
    if |keys| > 1 then [','] + WriteMembers(v, keys[1..], rest) else rest
  }

  lemma {:induction false} MembersOpen(v: Json, keys: seq<Text>, rest: Text)
    requires v.Object? && forall k :: k in keys ==> k in v.members
    ensures keys != [] ==> WriteMembers(v, keys, rest) != [] && WriteMembers(v, keys, rest)[0] == '\"'
    ensures keys != [] ==>
        WriteMembers(v, keys, rest)
        == WriteString(keys[0], [':'] + Write(v.members[keys[0]], AfterFirst(v, keys, rest)))
    ensures keys == [] ==> WriteMembers(v, keys, rest) == rest
  {
  }

  lemma {:induction false} AfterFirstUnique(v: Json, w: Json, ks: seq<Text>, ls: seq<Text>, r: Text, q: Text)
    requires v.Object? && w.Object? && ks != [] && ls != []
    requires (forall k :: k in ks ==> k in v.members) && (forall k :: k in ls ==> k in w.members)
    requires AfterFirst(v, ks, ['}'] + r) == AfterFirst(w, ls, ['}'] + q)
    ensures |ks| > 1 <==> |ls| > 1
    ensures |ks| > 1 ==> WriteMembers(v, ks[1..], ['}'] + r) == WriteMembers(w, ls[1..], ['}'] + q)
    ensures |ks| == 1 ==> r == q
  {
    hide WriteMembers;
    var x, y := AfterFirst(v, ks, ['}'] + r), AfterFirst(w, ls, ['}'] + q);
    assert x[0] == (if |ks| > 1 then ',' else '}') && y[0] == if |ls| > 1 then ',' else '}';
    assert x[1..] == if |ks| > 1 then WriteMembers(v, ks[1..], ['}'] + r) else r;
    assert y[1..] == if |ls| > 1 then WriteMembers(w, ls[1..], ['}'] + q) else q;
  }

  /** One member: the key, its value and what follows. */
  lemma {:induction false} MemberUnique(v: Json, w: Json, k: Text, l: Text, x: Text, y: Text)
    requires v.Object? && w.Object? && Marshalable(v) && Marshalable(w) && k in v.members && l in w.members
    requires x != [] && x[0] in {',', '}'} && y != [] && y[0] in {',', '}'}
    requires WriteString(k, [':'] + Write(v.members[k], x)) == WriteString(l, [':'] + Write(w.members[l], y))
    ensures k == l && x == y && Norm(v.members[k]) == Norm(w.members[l])
    decreases v, 0, 0
  {
    hide Write, WriteString, Norm;
    var a, b := Write(v.members[k], x), Write(w.members[l], y);
    StringUnique(k, l, [':'] + a, [':'] + b);
    assert ([':'] + a)[1..] == a && ([':'] + b)[1..] == b;
    WriteUnique(v.members[k], w.members[l], x, y);
  }

  lemma {:induction false} MembersUnique(v: Json, w: Json, ks: seq<Text>, ls: seq<Text>, r: Text, q: Text)
    requires v.Object? && w.Object? && Marshalable(v) && Marshalable(w)
    requires (forall k :: k in ks ==> k in v.members) && (forall k :: k in ls ==> k in w.members)
    requires WriteMembers(v, ks, ['}'] + r) == WriteMembers(w, ls, ['}'] + q)
    ensures ks == ls && r == q
    ensures forall k :: k in ks ==> Norm(v.members[k]) == Norm(w.members[k])
    decreases v, 0, |ks|
  {
    var r', q' := ['}'] + r, ['}'] + q;
    MembersOpen(v, ks, r');
    MembersOpen(w, ls, q');
    if ks == [] {
      assert r'[1..] == r && q'[1..] == q;
    } else {
      hide Write, WriteString, WriteMembers, Norm, Marshalable;
      MemberUnique(v, w, ks[0], ls[0], AfterFirst(v, ks, r'), AfterFirst(w, ls, q'));
      AfterFirstUnique(v, w, ks, ls, r, q);
      if |ks| > 1 {
        MembersUnique(v, w, ks[1..], ls[1..], r, q);
      }
      SameKeys(ks, ls);
    }
  }

  lemma {:induction false} SameKeys(ks: seq<Text>, ls: seq<Text>)
    requires ks != [] && ls != [] && ks[0] == ls[0] && ks[1..] == ls[1..]
    ensures ks == ls && forall k :: k in ks ==> k == ks[0] || k in ks[1..]
  {
    assert ks == [ks[0]] + ks[1..] && ls == [ls[0]] + ls[1..];
  }

  lemma {:induction false} WriteNorm(v: Json, rest: Text)
    ensures Write(Norm(v), rest) == Write(v, rest)
    decreases v
  {
    match v
    case Array(elems) =>
      ElemsNorm(elems, [']'] + rest);
    case Object(members) =>
      assert Norm(v).members.Keys == members.Keys;
      MembersNorm(v, SortedKeys(members.Keys), ['}'] + rest);
    case _ =>
  }

  lemma {:induction false} ElemsNorm(elems: seq<Json>, rest: Text)
    ensures WriteElems(NormElems(elems), rest) == WriteElems(elems, rest)
    decreases elems
  {
    if elems != [] {
      ElemsNorm(elems[1..], rest);
      assert NormElems(elems)[1..] == NormElems(elems[1..]);
      assert |elems| > 1 <==> |NormElems(elems)| > 1 by {
        assert elems[1..] == [] <==> NormElems(elems[1..]) == [];
      }
      WriteNorm(elems[0], if |elems| > 1 then [','] + WriteElems(elems[1..], rest) else rest);
    }
  }

  lemma {:induction false} MembersNorm(v: Json, keys: seq<Text>, rest: Text)
    requires v.Object? && forall k :: k in keys ==> k in v.members
    ensures WriteMembers(Norm(v), keys, rest) == WriteMembers(v, keys, rest)
    decreases v, |keys|
  {
    if keys != [] {
      MembersNorm(v, keys[1..], rest);
      WriteNorm(v.members[keys[0]], if |keys| > 1 then [','] + WriteMembers(v, keys[1..], rest) else rest);
    }
  }

  /** The encoding is a faithful key: it exists or not together, and is equal exactly for values
      that are equal once nil containers are null. */
  lemma {:induction false} EncodeFaithful(v: Json, w: Json)
    requires Encode(v).Some? && Encode(w).Some?
    ensures Encode(v) == Encode(w) <==> Norm(v) == Norm(w)
  {
    if Encode(v) == Encode(w) {
      WriteUnique(v, w, [], []);
    }
    if Norm(v) == Norm(w) {
      WriteNorm(v, []);
      WriteNorm(w, []);
    }
  }

  // ---- The encoder's loops ----

  lemma {:induction false} EscapedAppends(s: Text, r: Text, q: Text)
    ensures WriteEscaped(s, r + q) == WriteEscaped(s, r) + q
  {
    hide Escape;
    if s != [] {
      EscapedAppends(s[1..], r, q);
      var tail := WriteEscaped(s[1..], r);
      assert Escape(s[0]) + (tail + q) == (Escape(s[0]) + tail) + q;
    }
  }

  lemma {:induction false} StringAppends(s: Text, r: Text, q: Text)
    ensures WriteString(s, r + q) == WriteString(s, r) + q
  {
    EscapedAppends(s, ['\"'] + r, q);
    assert ['\"'] + (r + q) == (['\"'] + r) + q;
  }

  lemma {:induction false} Associative(a: Text, r: Text, q: Text)
    ensures a + (r + q) == (a + r) + q
  {
  }

  /** Whatever follows an encoding comes after it. */
  lemma {:induction false} WriteAppends(v: Json, r: Text, q: Text)
    ensures Write(v, r + q) == Write(v, r) + q
    decreases v
  {
    hide WriteElems, WriteMembers, WriteString, SortedKeys;
    match v
    case Null => Associative("null", r, q);
    case Bool(b) => Associative(if b then "true" else "false", r, q);
    case Number(token) => Associative(token, r, q);
    case String(s) => StringAppends(s, r, q);
    case NilArray => Associative("null", r, q);
    case Array(elems) =>
      Associative([']'], r, q);
      ElemsAppend(elems, [']'] + r, q);
      Associative(['['], WriteElems(elems, [']'] + r), q);
    case NilObject => Associative("null", r, q);
    case Object(members) =>
      Associative(['}'], r, q);
      MembersAppend(v, SortedKeys(members.Keys), ['}'] + r, q);
      Associative(['{'], WriteMembers(v, SortedKeys(members.Keys), ['}'] + r), q);
    case Unmarshalable =>
  }

  lemma {:induction false} ElemsAppend(elems: seq<Json>, r: Text, q: Text)
    ensures WriteElems(elems, r + q) == WriteElems(elems, r) + q
    decreases elems
  {
    if elems != [] {
      var x := if |elems| > 1 then [','] + WriteElems(elems[1..], r) else r;
      ElemsAppend(elems[1..], r, q);
      WriteAppends(elems[0], x, q);
      assert x + q == if |elems| > 1 then [','] + WriteElems(elems[1..], r + q) else r + q;
    }
  }

  lemma {:induction false} MembersAppend(v: Json, keys: seq<Text>, r: Text, q: Text)
    requires v.Object? && forall k :: k in keys ==> k in v.members
    ensures WriteMembers(v, keys, r + q) == WriteMembers(v, keys, r) + q
    decreases v, |keys|
  {
    hide Write, WriteString, SortedKeys;
    if keys != [] {
      var x := if |keys| > 1 then [','] + WriteMembers(v, keys[1..], r) else r;
      MembersAppend(v, keys[1..], r, q);
      if |keys| > 1 {
        Associative([','], WriteMembers(v, keys[1..], r), q);
      }
      MemberAppends(v, keys[0], x, q);
    }
  }

  lemma {:induction false} MemberAppends(v: Json, key: Text, x: Text, q: Text)
    requires v.Object? && key in v.members
    ensures WriteString(key, [':'] + Write(v.members[key], x + q)) ==
        WriteString(key, [':'] + Write(v.members[key], x)) + q
    decreases v, 0
  {
    hide Write, WriteString;
    WriteAppends(v.members[key], x, q);
    StringAppends(key, [':'] + Write(v.members[key], x), q);
    Associative([':'], Write(v.members[key], x), q);
  }

  method MarshalString(s: Text) returns (out: Text)
    ensures out == WriteString(s, [])
  {
    hide Escape;
    out := ['\"'];
    assert ['\"'] + [] == ['\"'] && s[0..] == s;
    for i := 0 to |s|
      invariant out + WriteEscaped(s[i..], ['\"']) == WriteString(s, [])
    {
      assert s[i..][1..] == s[i + 1..];
      Associative(out, Escape(s[i]), WriteEscaped(s[i + 1..], ['\"']));
      out := out + Escape(s[i]);
    }
    out := out + ['\"'];
  }

  /** canonicalJSON: the bytes do not depend on the order a map yields its keys in. */
  method CanonicalJson(v: Json) returns (r: Option<Text>)
    ensures r == Encode(v)
    decreases v
  {
    match v {
      case Null => r := Some("null" + []);
      case Bool(b) => r := Some((if b then "true" else "false") + []);
      case Number(token) => r := if ValidNumber(token) then Some(token + []) else None;
      case String(s) =>
        var out := MarshalString(s);
        r := Some(out);
      case NilArray => r := Some("null" + []);
      case Array(elems) => r := CanonicalArray(v);
      case NilObject => r := Some("null" + []);
      case Object(members) => r := CanonicalObject(v);
      case Unmarshalable => r := None;
    }
  }

  lemma {:induction false} Flatten(out: Text, a: Text, b: Text, c: Text)
    ensures out + (a + (b + c)) == out + a + b + c
  {
  }

  /** The elements from i on, still to be written. */
  ghost function ElemsLeft(elems: seq<Json>, i: nat): Text
    requires i <= |elems|
  {
    (if 0 < i < |elems| then [','] else []) + WriteElems(elems[i..], [']'])
  }

  lemma {:induction false} ArrayStarts(v: Json)
    requires v.Array?
    ensures Write(v, []) == ['['] + ElemsLeft(v.elems, 0)
  {
    assert [']'] + [] == [']'] && v.elems[0..] == v.elems;
    assert ElemsLeft(v.elems, 0) == WriteElems(v.elems, [']']);
  }

  lemma {:induction false} ElementWritten(elems: seq<Json>, i: nat, out: Text)
    requires i < |elems|
    ensures out + ElemsLeft(elems, i) ==
        out + (if i > 0 then [','] else []) + Write(elems[i], []) + ElemsLeft(elems, i + 1)
  {
    hide Write;
    var left := ElemsLeft(elems, i + 1);
    assert elems[i..][1..] == elems[i + 1..];
    assert left == if i + 1 < |elems| then [','] + WriteElems(elems[i + 1..], [']']) else [']'];
    assert WriteElems(elems[i..], [']']) == Write(elems[i], left);
    assert [] + left == left;
    WriteAppends(elems[i], [], left);
    Flatten(out, if i > 0 then [','] else [], Write(elems[i], []), left);
  }

  method CanonicalArray(v: Json) returns (r: Option<Text>)
    requires v.Array?
    ensures r == Encode(v)
    decreases v, 0
  {
    hide Write, ElemsLeft;
    var elems := v.elems;
    var out := ['['];
    ArrayStarts(v);
    for i := 0 to |elems|
      invariant forall j :: 0 <= j < i ==> Marshalable(elems[j])
      invariant Write(v, []) == out + ElemsLeft(elems, i)
    {
      var item := CanonicalJson(elems[i]);
      if item.None? {
        return None;
      }
      ElementWritten(elems, i, out);
      if i > 0 {
        out := out + [','];
      } else {
        assert out + [] == out;
      }
      out := out + item.value;
    }
    ArrayEnds(elems);
    out := out + [']'];
    r := Some(out);
  }

  lemma {:induction false} ArrayEnds(elems: seq<Json>)
    ensures ElemsLeft(elems, |elems|) == [']']
  {
  }

  ghost function Names(keys: seq<Text>): set<Text> { set k | k in keys }

  lemma {:induction false} NamesAppend(keys: seq<Text>, k: Text)
    ensures Names(keys + [k]) == Names(keys) + {k}
  {
    assert forall x :: x in keys + [k] <==> x in keys || x == k;
  }

  /** sort.Strings. */
  method SortStrings(keys: seq<Text>) returns (sorted: seq<Text>)
    requires forall i, j :: 0 <= i < j < |keys| ==> keys[i] != keys[j]
    ensures sorted == SortedKeys(Names(keys))
  {
    sorted := [];
    for i := 0 to |keys|
      invariant Lists(sorted, Names(keys[..i]))
    {
      assert keys[i] !in keys[..i];
      InsertLists(keys[i], sorted, Names(keys[..i]));
      assert Names(keys[..i]) + {keys[i]} == Names(keys[..i + 1]);
      sorted := Insert(keys[i], sorted);
    }
    assert keys[..|keys|] == keys;
    ListsUnique(sorted, SortedKeys(Names(keys)), Names(keys));
  }

  /** The keys of a map, in whatever order ranging over it gives. */
  method CollectKeys(names: set<Text>) returns (keys: seq<Text>)
    ensures Names(keys) == names && forall i, j :: 0 <= i < j < |keys| ==> keys[i] != keys[j]
  {
    keys := [];
    var left := names;
    while left != {}
      invariant left <= names && Names(keys) == names - left
      invariant forall i, j :: 0 <= i < j < |keys| ==> keys[i] != keys[j]
      decreases left
    {
      var k :| k in left;
      assert k !in Names(keys);
      NamesAppend(keys, k);
      keys := keys + [k];
      left := left - {k};
    }
  }

  ghost function MembersLeft(v: Json, keys: seq<Text>, i: nat): Text
    requires v.Object? && i <= |keys| && forall k :: k in keys ==> k in v.members
  {
    (if 0 < i < |keys| then [','] else []) + WriteMembers(v, keys[i..], ['}'])
  }

  lemma {:induction false} ObjectStarts(v: Json)
    requires v.Object?
    ensures Write(v, []) == ['{'] + MembersLeft(v, SortedKeys(v.members.Keys), 0)
  {
    var keys := SortedKeys(v.members.Keys);
    assert ['}'] + [] == ['}'] && keys[0..] == keys;
    assert MembersLeft(v, keys, 0) == WriteMembers(v, keys, ['}']);
  }

  lemma {:induction false} MemberLeft(v: Json, keys: seq<Text>, i: nat)
    requires v.Object? && i < |keys| && forall k :: k in keys ==> k in v.members
    ensures MembersLeft(v, keys, i) == (if i > 0 then [','] else [])
      + (WriteString(keys[i], []) + ([':'] + (Write(v.members[keys[i]], []) + MembersLeft(v, keys, i + 1))))
  {
    hide Write, WriteString;
    var value, left := v.members[keys[i]], MembersLeft(v, keys, i + 1);
    assert keys[i..][1..] == keys[i + 1..];
    assert left == if i + 1 < |keys| then [','] + WriteMembers(v, keys[i + 1..], ['}']) else ['}'];
    assert WriteMembers(v, keys[i..], ['}']) == WriteString(keys[i], [':'] + Write(value, left));
    assert [] + left == left;
    WriteAppends(value, [], left);
    StringAppends(keys[i], [], [':'] + Write(value, left));
    assert [] + ([':'] + Write(value, left)) == [':'] + Write(value, left);
  }

  lemma {:induction false} MemberWritten(v: Json, keys: seq<Text>, i: nat, out: Text)
    requires v.Object? && i < |keys| && forall k :: k in keys ==> k in v.members
    ensures out + MembersLeft(v, keys, i)
         == out + (if i > 0 then [','] else []) + WriteString(keys[i], []) + [':'] + Write(v.members[keys[i]], []) +
             MembersLeft(v, keys, i + 1)
  {
    hide Write, WriteString, MembersLeft;
    MemberLeft(v, keys, i);
    var comma := if i > 0 then [','] else [];
    Flatten(out, comma, WriteString(keys[i], []), [':'] +
        (Write(v.members[keys[i]], []) + MembersLeft(v, keys, i + 1)));
    Flatten(out + comma + WriteString(keys[i], []), [':'], Write(v.members[keys[i]], []), MembersLeft(v, keys, i + 1));
  }

  lemma {:induction false} SortedMembers(v: Json, keys: seq<Text>)
    requires v.Object? && keys == SortedKeys(v.members.Keys)
    ensures forall k :: k in keys <==> k in v.members
  {
  }

  lemma {:induction false} MemberAppended(v: Json, keys: seq<Text>, i: nat, before: Text, value: Text, out: Text)
    requires v.Object? && i < |keys| && forall k :: k in keys ==> k in v.members
    requires Encode(v.members[keys[i]]) == Some(value)
    requires out == before + (if i > 0 then [','] else []) + WriteString(keys[i], []) + [':'] + value
    ensures Marshalable(v.members[keys[i]])
    ensures out + MembersLeft(v, keys, i + 1) == before + MembersLeft(v, keys, i)
  {
    hide Write, WriteString, MembersLeft;
    MemberWritten(v, keys, i, before);
  }

  lemma {:induction false} MemberFails(v: Json, k: Text)
    requires v.Object? && k in v.members && Encode(v.members[k]) == None
    ensures Encode(v) == None
  {
    hide Write;
  }

  lemma {:induction false} ObjectEnds(v: Json, keys: seq<Text>)
    requires v.Object? && forall k :: k in keys ==> k in v.members
    ensures MembersLeft(v, keys, |keys|) == ['}']
  {
  }

  lemma {:induction false} ObjectEncoded(v: Json, keys: seq<Text>, out: Text)
    requires v.Object? && (forall k :: k in keys <==> k in v.members)
    requires forall j :: 0 <= j < |keys| ==> Marshalable(v.members[keys[j]])
    requires Write(v, []) == out + MembersLeft(v, keys, |keys|)
    ensures Encode(v) == Some(out + ['}'])
  {
    hide Write, MembersLeft;
    ObjectEnds(v, keys);
    forall k | k in v.members
      ensures Marshalable(v.members[k])
    {
      assert k in keys;
    }
  }

  method CanonicalObject(v: Json) returns (r: Option<Text>)
    requires v.Object?
    ensures r == Encode(v)
    decreases v, 0
  {
    hide Write, MembersLeft, WriteString, Sorted, Names, Encode, Marshalable, SortedKeys;
    var keys := CollectKeys(v.members.Keys);
    keys := SortStrings(keys);
    SortedMembers(v, keys);
    var out := ['{'];
    ObjectStarts(v);
    for i := 0 to |keys|
      invariant forall j :: 0 <= j < i ==> Marshalable(v.members[keys[j]])
      invariant Write(v, []) == out + MembersLeft(v, keys, i)
    {
      assert keys[i] in keys;
      ghost var before := out;
      if i > 0 {
        out := out + [','];
      } else {
        assert out == before + [];
      }
      var name := MarshalString(keys[i]);
      out := out + name + [':'];
      var value := CanonicalJson(v.members[keys[i]]);
      if value.None? {
        MemberFails(v, keys[i]);
        return None;
      }
      out := out + value.value;
      MemberAppended(v, keys, i, before, value.value, out);
    }
    ObjectEncoded(v, keys, out);
    out := out + ['}'];
    r := Some(out);
  }

  // ---- The encoding is JSON ----

  /** The character an escape of one letter stands for (section 7 of RFC 8259). */
  function Unescaped(x: char): Text {
    match x
    case '\"' => ['\"']
    case '\\' => ['\\']
    case '/' => ['/']
    case 'b' => ['\U{08}']
    case 'f' => ['\U{0C}']
    case 'n' => ['\n']
    case 'r' => ['\r']
    case 't' => ['\t']
    case _ => []
  }

  function Digit(x: char): int {
    if '0' <= x <= '9' then x as int - '0' as int
    else if 'a' <= x <= 'f' then x as int - 'a' as int + 10
    else if 'A' <= x <= 'F' then x as int - 'A' as int + 10
    else -1
  }

  /** code stands for c: as itself, by a letter, or by four hexadecimal digits. */
  predicate CodeOf(c: char, code: Text) {
    || (code == [c] && c >= ' ' && c != '\"' && c != '\\')
    || (|code| == 2 && code[0] == '\\' && Unescaped(code[1]) == [c])
    || (|code| == 6 && code[0] == '\\' && code[1] == 'u' && (forall i :: 2 <= i < 6 ==> Digit(code[i]) >= 0)
        && c as int == ((Digit(code[2]) * 16 + Digit(code[3])) * 16 + Digit(code[4])) * 16 + Digit(code[5]))
  }

  function Concat(parts: seq<Text>): Text { if parts == [] then [] else parts[0] + Concat(parts[1..]) }

  /** The parts with a comma between them. */
  function Separated(parts: seq<Text>): Text {
    if parts == [] then [] else if |parts| == 1 then parts[0] else parts[0] + "," + Separated(parts[1..])
  }

  /** text is a JSON string for s. */
  ghost predicate StringText(s: Text, text: Text) {
    exists codes ::
      && |codes| == |s| && (forall i :: 0 <= i < |s| ==> CodeOf(s[i], codes[i]))
      && text == "\"" + Concat(codes) + "\""
  }

  ghost predicate ElemTexts(elems: seq<Json>, texts: seq<Text>)
    decreases elems
  {
    |texts| == |elems| && forall i :: 0 <= i < |elems| ==> JsonText(elems[i], texts[i])
  }

  /** A member is its name, a colon and its value. */
  ghost predicate MemberText(v: Json, k: Text, text: Text)
    requires v.Object? && k in v.members
    decreases v, 0
  {
    exists name, value :: StringText(k, name) && JsonText(v.members[k], value) && text == name + ":" + value
  }

  /** text is a JSON value for v, without white space and with the members of each object by increasing
      names. */
  ghost predicate JsonText(v: Json, text: Text)
    decreases v, 1
  {
    match v
    case Null => text == "null"
    case Bool(b) => text == if b then "true" else "false"
    case Number(token) => text == token
    case String(s) => StringText(s, text)
    case NilArray => text == "null"
    case NilObject => text == "null"
    case Unmarshalable => false
    case Array(elems) => exists texts :: ElemTexts(elems, texts) && text == "[" + Separated(texts) + "]"
    case Object(members) => exists keys, texts ::
      && Lists(keys, members.Keys) && |texts| == |keys|
      && (forall i :: 0 <= i < |keys| ==> MemberText(v, keys[i], texts[i]))
      && text == "{" + Separated(texts) + "}"
  }

  lemma {:induction false} EscapeIsCode(c: char)
    ensures CodeOf(c, Escape(c))
  {
    if |Escape(c)| == 6 && c != '\U{2028}' && c != '\U{2029}' {
      HexDigit(c as int / 16);
      HexDigit(c as int % 16);
    }
  }

  lemma {:induction false} HexDigit(n: nat)
    requires n < 16
    ensures Digit(HEX[n]) == n
  {
  }

  lemma {:induction false} EscapedIsCodes(s: Text, rest: Text) returns (codes: seq<Text>)
    ensures |codes| == |s| && forall i :: 0 <= i < |s| ==> CodeOf(s[i], codes[i])
    ensures WriteEscaped(s, rest) == Concat(codes) + rest
  {
    hide Escape, CodeOf;
    codes := [];
    if s != [] {
      var others := EscapedIsCodes(s[1..], rest);
      EscapeIsCode(s[0]);
      codes := [Escape(s[0])] + others;
      assert codes[1..] == others;
    }
  }

  lemma {:induction false} StringIsText(s: Text, rest: Text) returns (text: Text)
    ensures StringText(s, text) && WriteString(s, rest) == text + rest
  {
    hide CodeOf;
    var codes := EscapedIsCodes(s, ['\"'] + rest);
    text := "\"" + Concat(codes) + "\"";
    assert WriteString(s, rest) == text + rest;
  }

  /** What is written is a JSON text of the value, followed by rest. */
  lemma {:induction false} WriteIsJson(v: Json, rest: Text) returns (text: Text)
    requires Marshalable(v)
    ensures JsonText(v, text) && Write(v, rest) == text + rest
    decreases v, 1
  {
    hide StringText, WriteString;
    match v
    case Null => text := "null";
    case Bool(b) => text := if b then "true" else "false";
    case Number(token) => text := token;
    case String(s) => text := StringIsText(s, rest);
    case NilArray => text := "null";
    case NilObject => text := "null";
    case Array(elems) =>
      var texts := ElemsAreJson(elems, [']'] + rest);
      text := "[" + Separated(texts) + "]";
      assert Write(v, rest) == text + rest;
    case Object(members) =>
      var keys := SortedKeys(members.Keys);
      var texts := MembersAreJson(v, keys, ['}'] + rest);
      text := "{" + Separated(texts) + "}";
      assert Write(v, rest) == text + rest;
  }

  lemma {:induction false} ElemsAreJson(elems: seq<Json>, rest: Text) returns (texts: seq<Text>)
    requires forall i :: 0 <= i < |elems| ==> Marshalable(elems[i])
    ensures ElemTexts(elems, texts) && WriteElems(elems, rest) == Separated(texts) + rest
    decreases elems, 0
  {
    hide JsonText, Marshalable, Write;
    texts := [];
    if elems != [] {
      var others := ElemsAreJson(elems[1..], rest);
      var first := WriteIsJson(elems[0], if |elems| > 1 then [','] + WriteElems(elems[1..], rest) else rest);
      texts := [first] + others;
      assert texts[1..] == others;
      assert |elems| > 1 ==> first + ([','] + (Separated(others) + rest)) == first + "," + Separated(others) + rest;
    }
  }

  lemma {:induction false} MembersAreJson(v: Json, keys: seq<Text>, rest: Text) returns (texts: seq<Text>)
    requires v.Object? && (forall k :: k in keys ==> k in v.members) && Marshalable(v)
    ensures |texts| == |keys| && (forall i :: 0 <= i < |keys| ==> MemberText(v, keys[i], texts[i]))
    ensures WriteMembers(v, keys, rest) == Separated(texts) + rest
    decreases v, 0, keys
  {
    hide JsonText, StringText, Write, WriteString;
    texts := [];
    if keys != [] {
      var others := MembersAreJson(v, keys[1..], rest);
      var later := if |keys| > 1 then [','] + WriteMembers(v, keys[1..], rest) else rest;
      var value := WriteIsJson(v.members[keys[0]], later);
      var name := StringIsText(keys[0], [':'] + Write(v.members[keys[0]], later));
      var first := name + ":" + value;
      assert name + ([':'] + (value + later)) == first + later;
      texts := [first] + others;
      assert texts[1..] == others;
      assert |keys| > 1 ==> first + ([','] + (Separated(others) + rest)) == first + "," + Separated(others) + rest;
    }
  }
}
