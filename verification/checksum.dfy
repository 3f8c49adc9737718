/** What is hashed into a checksum: operation name, operation text and variables with their
    defaults filled in, each part delimited so that the whole can be taken apart again. */
module Checksum {
  import opened Wrappers
  import opened Canonical

  /** The unit separator 0x1f. */
  const SEPARATOR: char := '\U{1F}'

  /** The default of a variable definition; a value that does not coerce is an error. */
  datatype Default = NoDefault | Coerces(value: Json) | Fails

  datatype VariableDefinition = VariableDefinition(name: Text, default: Default)

  /** The operation's name, its compact re-print with fragments, and its variable definitions. */
  datatype Operation = Operation(name: Text, text: Text, definitions: seq<VariableDefinition>)

  /** Variables are a possibly nil map. */
  function Members(v: Json): map<Text, Json> { if v.Object? then v.members else map[] }

  predicate HasDefault(defs: seq<VariableDefinition>) {
    exists i :: 0 <= i < |defs| && defs[i].default != NoDefault
  }

  /** The first n definitions filled into m, unless one of them has to and cannot. */
  function Filled(defs: seq<VariableDefinition>, n: nat, m: map<Text, Json>): Option<map<Text, Json>>
    requires n <= |defs|
  {
    if n == 0 then Some(m)
    else
      var def := defs[n - 1];
      match Filled(defs, n - 1, m)
      case None => None
      case Some(so) =>
        if def.default == NoDefault || def.name in so then Some(so)
        else if def.default == Fails then None
        else Some(so[def.name := def.default.value])
  }

  function Merged(defs: seq<VariableDefinition>, vars: Json): Option<Json> {
    if !HasDefault(defs) then Some(vars)
    else match Filled(defs, |defs|, Members(vars))
      case None => None
      case Some(m) => Some(Object(m))
  }

  /** applyVariableDefaults. */
  method ApplyVariableDefaults(defs: seq<VariableDefinition>, vars: Json) returns (r: Option<Json>)
    requires vars.NilObject? || vars.Object?
    ensures r == Merged(defs, vars)
  {
    var hasDefault := false;
    for i := 0 to |defs|
      invariant hasDefault <==> HasDefault(defs[..i])
    {
      assert defs[..i + 1] == defs[..i] + [defs[i]];
      if defs[i].default != NoDefault {
        assert defs[..i + 1][i].default != NoDefault;
        hasDefault := true;
      } else if HasDefault(defs[..i]) {
        var j :| 0 <= j < i && defs[..i][j].default != NoDefault;
        assert defs[..i + 1][j].default != NoDefault;
      }
    }
    assert defs[..|defs|] == defs;
    if !hasDefault {
      return Some(vars);
    }
    var merged := Members(vars);
    for i := 0 to |defs|
      invariant Filled(defs, i, Members(vars)) == Some(merged)
    {
      if defs[i].default == NoDefault || defs[i].name in merged {
        continue;
      }
      if defs[i].default == Fails {
        FailureStays(defs, i + 1, Members(vars));
        return None;
      }
      merged := merged[defs[i].name := defs[i].default.value];
    }
    r := Some(Object(merged));
  }

  lemma {:induction false} FailureStays(defs: seq<VariableDefinition>, n: nat, m: map<Text, Json>)
    requires n <= |defs| && Filled(defs, n, m).None?
    ensures Filled(defs, |defs|, m).None?
    decreases |defs| - n
  {
    if n < |defs| {
      FailureStays(defs, n + 1, m);
    }
  }

  /** A request keeps what it supplies, and gains the default of every variable it leaves out. */
  lemma {:induction false} FilledKeeps(defs: seq<VariableDefinition>, n: nat, m: map<Text, Json>)
    requires n <= |defs| && Filled(defs, n, m).Some?
    ensures forall k :: k in m ==> k in Filled(defs, n, m).value && Filled(defs, n, m).value[k] == m[k]
    ensures forall j :: 0 <= j < n && defs[j].default != NoDefault ==> defs[j].name in Filled(defs, n, m).value
    ensures forall k :: k in Filled(defs, n, m).value && k !in m ==>
      exists j :: 0 <= j < n && defs[j].name == k && defs[j].default == Coerces(Filled(defs, n, m).value[k])
  {
    if n > 0 {
      FilledKeeps(defs, n - 1, m);
    }
  }

  /** Leaving out a variable and supplying its default come to the same; only the first
      definition of a name with a default counts. */
  lemma {:induction false} OmitOrSupply(defs: seq<VariableDefinition>, vars: Json, i: nat)
    requires vars.NilObject? || vars.Object?
    requires i < |defs| && defs[i].default.Coerces? && defs[i].name !in Members(vars)
    requires forall j :: 0 <= j < i && defs[j].name == defs[i].name ==> defs[j].default == NoDefault
    ensures Merged(defs, Object(Members(vars)[defs[i].name := defs[i].default.value])) == Merged(defs, vars)
  {
    assert HasDefault(defs);
    SuppliedFills(defs, Members(vars), i, |defs|);
  }

  lemma {:induction false} SuppliedFills(defs: seq<VariableDefinition>, m: map<Text, Json>, i: nat, n: nat)
    requires i < |defs| && n <= |defs| && defs[i].default.Coerces? && defs[i].name !in m
    requires forall j :: 0 <= j < i && defs[j].name == defs[i].name ==> defs[j].default == NoDefault
    ensures var a, b := Filled(defs, n, m), Filled(defs, n, m[defs[i].name := defs[i].default.value]);
      && (a.None? <==> b.None?)
      && (a.Some? ==> b.value == a.value[defs[i].name := defs[i].default.value])
      && (a.Some? && n > i ==> a == b)
      && (a.Some? && n <= i ==> defs[i].name !in a.value)
  {
    if n > 0 {
      SuppliedFills(defs, m, i, n - 1);
    }
  }

  // ---- The hashed bytes ----

  ghost function Input(op: Operation, vars: Json): Option<Text> {
    match Merged(op.definitions, vars)
    case None => None
    case Some(merged) =>
      match Encode(merged)
      case None => None
      case Some(enc) => Some(op.name + [SEPARATOR] + op.text + [SEPARATOR] + enc)
  }

  /** OperationChecksum, up to the hash itself. */
  method ChecksumInput(op: Operation, vars: Json) returns (r: Option<Text>)
    requires vars.NilObject? || vars.Object?
    ensures r == Input(op, vars)
  {
    var bytes := op.name + [SEPARATOR];
    bytes := bytes + op.text + [SEPARATOR];
    var merged := ApplyVariableDefaults(op.definitions, vars);
    if merged.None? {
      return None;
    }
    var enc := CanonicalJson(merged.value);
    if enc.None? {
      return None;
    }
    r := Some(bytes + enc.value);
  }

  /** What json.Marshal never leaves as it is: control characters, and with HTML escaping on, these. */
  predicate Hidden(x: char) {
    x < ' ' || x == '<' || x == '>' || x == '&' || x == '\U{2028}' || x == '\U{2029}'
  }

  lemma {:induction false} EscapeHides(c: char, x: char)
    requires Hidden(x)
    ensures x !in Escape(c)
  {
    if |Escape(c)| == 6 && c != '\U{2028}' && c != '\U{2029}' {
      var i, j := c as int / 16, c as int % 16;
      HexShows(i);
      HexShows(j);
      hide HEX, Hidden;
      assert Escape(c) == ['\\', 'u', '0', '0', HEX[i], HEX[j]];
      PlainShows(x);
    } else {
      hide HEX;
    }
  }

  lemma {:induction false} PlainShows(x: char)
    requires Hidden(x)
    ensures x != '\\' && x != 'u' && x != '0'
  {
  }

  lemma {:induction false} HexShows(n: nat)
    requires n < 16
    ensures '0' <= HEX[n] <= 'f' && !Hidden(HEX[n])
  {
  }

  lemma {:induction false} EscapedHides(s: Text, rest: Text, x: char)
    requires Hidden(x) && x !in rest
    ensures x !in WriteEscaped(s, rest)
  {
    hide Escape, Hidden;
    if s != [] {
      EscapeHides(s[0], x);
      EscapedHides(s[1..], rest, x);
    }
  }

  /** An encoding holds none of them, and so never the separator. */
  lemma {:induction false} WriteHides(v: Json, rest: Text, x: char)
    requires Marshalable(v) && Hidden(x) && x !in rest
    ensures x !in Write(v, rest)
    decreases v
  {
    match v
    case String(s) => EscapedHides(s, ['\"'] + rest, x);
    case Array(elems) => ElemsHide(elems, [']'] + rest, x);
    case Object(members) => MembersHide(v, SortedKeys(members.Keys), ['}'] + rest, x);
    case _ =>
  }

  lemma {:induction false} ElemsHide(elems: seq<Json>, rest: Text, x: char)
    requires (forall i :: 0 <= i < |elems| ==> Marshalable(elems[i])) && Hidden(x) && x !in rest
    ensures x !in WriteElems(elems, rest)
    decreases elems
  {
    if elems != [] {
      ElemsHide(elems[1..], rest, x);
      WriteHides(elems[0], if |elems| > 1 then [','] + WriteElems(elems[1..], rest) else rest, x);
    }
  }

  lemma {:induction false} MembersHide(v: Json, keys: seq<Text>, rest: Text, x: char)
    requires v.Object? && (forall k :: k in keys ==> k in v.members) && Marshalable(v) && Hidden(x) && x !in rest
    ensures x !in WriteMembers(v, keys, rest)
    decreases v, |keys|
  {
    if keys != [] {
      MembersHide(v, keys[1..], rest, x);
      var later := if |keys| > 1 then [','] + WriteMembers(v, keys[1..], rest) else rest;
      WriteHides(v.members[keys[0]], later, x);
      EscapedHides(keys[0], ['\"'] + ([':'] + Write(v.members[keys[0]], later)), x);
    }
  }

  lemma {:induction false} FirstPartUnique(a: Text, b: Text, r: Text, q: Text)
    requires SEPARATOR !in a && SEPARATOR !in b && a + [SEPARATOR] + r == b + [SEPARATOR] + q
    ensures a == b && r == q
  {
    var x, y := a + [SEPARATOR] + r, b + [SEPARATOR] + q;
    assert x[|a|] == SEPARATOR && y[|b|] == SEPARATOR;
    assert forall i :: 0 <= i < |a| ==> x[i] == a[i];
    assert forall i :: 0 <= i < |b| ==> y[i] == b[i];
    assert x[..|a|] == a && y[..|b|] == b;
    assert x[|a| + 1..] == r && y[|b| + 1..] == q;
  }

  lemma {:induction false} LastPartUnique(a: Text, b: Text, r: Text, q: Text)
    requires SEPARATOR !in r && SEPARATOR !in q && a + [SEPARATOR] + r == b + [SEPARATOR] + q
    ensures a == b && r == q
  {
    var x, y := a + [SEPARATOR] + r, b + [SEPARATOR] + q;
    assert x[|a|] == SEPARATOR && y[|b|] == SEPARATOR;
    assert forall i :: |a| < i < |x| ==> x[i] == r[i - |a| - 1];
    assert forall i :: |b| < i < |y| ==> y[i] == q[i - |b| - 1];
    assert x[..|a|] == a && y[..|b|] == b;
    assert x[|a| + 1..] == r && y[|b| + 1..] == q;
  }

  /** Two requests hash the same bytes exactly when they have the same name, the same text and, once
      defaults are filled in, the same variables.  The text may hold anything: a name never holds
      the separator and the variables' encoding never does, so both ends can be cut off. */
  lemma {:induction false} InputFaithful(a: Operation, b: Operation, varsA: Json, varsB: Json)
    requires Input(a, varsA).Some? && Input(b, varsB).Some?
    requires SEPARATOR !in a.name && SEPARATOR !in b.name
    ensures Input(a, varsA) == Input(b, varsB) <==>
      && a.name == b.name && a.text == b.text
      && Norm(Merged(a.definitions, varsA).value) == Norm(Merged(b.definitions, varsB).value)
  {
    hide Encode, Merged;
    var u, w := Merged(a.definitions, varsA).value, Merged(b.definitions, varsB).value;
    EncodeFaithful(u, w);
    if Input(a, varsA) == Input(b, varsB) {
      EncodedHasNoSeparator(u);
      EncodedHasNoSeparator(w);
      LastPartUnique(a.name + [SEPARATOR] + a.text, b.name + [SEPARATOR] + b.text, Encode(u).value, Encode(w).value);
      FirstPartUnique(a.name, b.name, a.text, b.text);
    }
  }

  lemma {:induction false} EncodedHasNoSeparator(v: Json)
    requires Encode(v).Some?
    ensures SEPARATOR !in Encode(v).value
  {
    WriteHides(v, [], SEPARATOR);
  }

  /** The first definition of the name that has a default. */
  ghost predicate FirstDefault(defs: seq<VariableDefinition>, n: nat, name: Text, i: nat) {
    && i < n <= |defs| && defs[i].name == name && defs[i].default != NoDefault
    && forall j :: 0 <= j < i && defs[j].name == name ==> defs[j].default == NoDefault
  }

  ghost predicate Defaults(defs: seq<VariableDefinition>, n: nat, name: Text, default: Default) {
    exists i: nat :: FirstDefault(defs, n, name, i) && defs[i].default == default
  }

  /** merged is what was supplied, and for every other name the value of its first default. */
  ghost predicate FillsIn(defs: seq<VariableDefinition>, n: nat, m: map<Text, Json>, merged: map<Text, Json>) {
    && (forall k :: k in m ==> k in merged && merged[k] == m[k])
    && (forall k, v :: k !in m ==> (k in merged && merged[k] == v <==> Defaults(defs, n, k, Coerces(v))))
  }

  lemma {:induction false} DefaultsMore(defs: seq<VariableDefinition>, n: nat, name: Text, default: Default)
    requires n < |defs|
    ensures Defaults(defs, n + 1, name, default) <==>
      || Defaults(defs, n, name, default)
      || (defs[n].name == name && defs[n].default == default != NoDefault
          && forall j :: 0 <= j < n && defs[j].name == name ==> defs[j].default == NoDefault)
  {
    if Defaults(defs, n, name, default) {
      var i: nat :| FirstDefault(defs, n, name, i) && defs[i].default == default;
      assert FirstDefault(defs, n + 1, name, i);
    }
    if Defaults(defs, n + 1, name, default) {
      var i: nat :| FirstDefault(defs, n + 1, name, i) && defs[i].default == default;
      assert i < n ==> FirstDefault(defs, n, name, i);
    }
    if defs[n].name == name && defs[n].default == default != NoDefault
        && forall j :: 0 <= j < n && defs[j].name == name ==> defs[j].default == NoDefault {
      assert FirstDefault(defs, n + 1, name, n);
    }
  }

  lemma {:induction false} SomeDefault(defs: seq<VariableDefinition>, n: nat, name: Text, j: nat)
    requires j < n <= |defs| && defs[j].name == name && defs[j].default != NoDefault
    ensures exists default :: default != NoDefault && Defaults(defs, n, name, default)
  {
    if i :| 0 <= i < j && defs[i].name == name && defs[i].default != NoDefault {
      SomeDefault(defs, n, name, i);
    } else {
      assert FirstDefault(defs, n, name, j);
      assert Defaults(defs, n, name, defs[j].default);
    }
  }

  lemma {:induction false} FilledMeans(defs: seq<VariableDefinition>, n: nat, m: map<Text, Json>)
    requires n <= |defs|
    ensures Filled(defs, n, m).None? <==> exists k :: k !in m && Defaults(defs, n, k, Fails)
    ensures Filled(defs, n, m).Some? ==> FillsIn(defs, n, m, Filled(defs, n, m).value)
  {
    hide Defaults;
    if n == 0 {
      NoDefaults(defs);
    } else {
      FilledMeans(defs, n - 1, m);
      forall k, default
        ensures Defaults(defs, n, k, default) <==>
          || Defaults(defs, n - 1, k, default)
          || (defs[n - 1].name == k && defs[n - 1].default == default != NoDefault
              && forall j :: 0 <= j < n - 1 && defs[j].name == k ==> defs[j].default == NoDefault)
      {
        DefaultsMore(defs, n - 1, k, default);
      }
      if Filled(defs, n - 1, m).Some? {
        DefinedBefore(defs, n - 1, m);
      }
    }
  }

  lemma {:induction false} NoDefaults(defs: seq<VariableDefinition>)
    ensures forall k, default :: !Defaults(defs, 0, k, default)
  {
  }

  /** A name that the definitions so far give no value has no default among them. */
  lemma {:induction false} DefinedBefore(defs: seq<VariableDefinition>, n: nat, m: map<Text, Json>)
    requires n < |defs| && Filled(defs, n, m).Some? && FillsIn(defs, n, m, Filled(defs, n, m).value)
    requires forall k :: k !in m ==> !Defaults(defs, n, k, Fails)
    ensures defs[n].name !in Filled(defs, n, m).value ==>
      forall j :: 0 <= j < n && defs[j].name == defs[n].name ==> defs[j].default == NoDefault
    ensures defs[n].name in Filled(defs, n, m).value && defs[n].name !in m ==>
      exists j :: 0 <= j < n && defs[j].name == defs[n].name && defs[j].default != NoDefault
  {
    hide Filled;
    var name := defs[n].name;
    var merged := Filled(defs, n, m).value;
    if name !in merged {
      assert forall v :: !Defaults(defs, n, name, Coerces(v));
      forall j | 0 <= j < n && defs[j].name == name
        ensures defs[j].default == NoDefault
      {
        if defs[j].default != NoDefault {
          SomeDefault(defs, n, name, j);
          var default :| default != NoDefault && Defaults(defs, n, name, default);
          match default
          case Coerces(_) =>
          case Fails =>
          case NoDefault =>
        }
      }
    } else if name !in m {
      assert Defaults(defs, n, name, Coerces(merged[name]));
      var i: nat :| FirstDefault(defs, n, name, i) && defs[i].default == Coerces(merged[name]);
    }
  }

  /** Without any default the variables go in as they are, nil included; with one they are filled in,
      unless the first default of a name that was not supplied does not coerce. */
  lemma {:induction false} MergedMeans(defs: seq<VariableDefinition>, vars: Json)
    requires vars.NilObject? || vars.Object?
    ensures var m, merged := if vars.Object? then vars.members else map[], Merged(defs, vars);
      if forall i :: 0 <= i < |defs| ==> defs[i].default == NoDefault then merged == Some(vars)
      else
        && (merged.None? <==> exists k :: k !in m && Defaults(defs, |defs|, k, Fails))
        && (merged.Some? ==> merged.value.Object? && FillsIn(defs, |defs|, m, merged.value.members))
  {
    FilledMeans(defs, |defs|, Members(vars));
  }

  /** The hashed bytes: name, text, and the JSON of the variables, with the separator after each of the
      first two; an error exactly if a default does not coerce or a value cannot be marshalled. */
  lemma {:induction false} InputMeans(op: Operation, vars: Json) returns (json: Text)
    requires vars.NilObject? || vars.Object?
    ensures var merged := Merged(op.definitions, vars);
      && (Input(op, vars).None? <==> merged.None? || !Marshalable(merged.value))
      && (Input(op, vars).Some? ==>
            JsonText(merged.value, json) && Input(op, vars).value == op.name + "\U{1F}" + op.text + "\U{1F}" + json)
  {
    json := [];
    if Input(op, vars).Some? {
      json := WriteIsJson(Merged(op.definitions, vars).value, []);
      assert json + [] == json;
    }
  }

  /** A retry that sends no variables object matches one that sends an empty one exactly when some
      variable has a default. */
  lemma {:induction false} NilOrEmptyVariables(op: Operation)
    requires Input(op, NilObject).Some?
    ensures Input(op, Object(map[])).Some?
    ensures Input(op, NilObject) == Input(op, Object(map[])) <==> HasDefault(op.definitions)
  {
    if !HasDefault(op.definitions) {
      assert Marshalable(Object(map[]));
      EncodeFaithful(NilObject, Object(map[]));
      if Input(op, NilObject) == Input(op, Object(map[])) {
        SamePrefix(op.name + [SEPARATOR] + op.text + [SEPARATOR], Encode(NilObject).value, Encode(Object(map[])).value);
      }
    }
  }

  lemma {:induction false} SamePrefix(p: Text, r: Text, q: Text)
    ensures p + r == p + q ==> r == q
  {
    assert (p + r)[|p|..] == r && (p + q)[|p|..] == q;
  }
}
