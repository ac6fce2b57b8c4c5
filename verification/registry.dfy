/**
 * The values the type registry holds: type references as they appear in a
 * protocol's JSON, the `types` dictionary with its "natives are replaced,
 * otherwise first in wins" merge, and the root-to-leaf walk of `addProtocol`.
 */
module Registry {
  import opened Js

  /** A plain JavaScript object, its keys enumerated in insertion order.
      (JavaScript enumerates integer-like keys first, in ascending order;
      that is not modelled.) */
  datatype Dict<V> = Dict(keys: seq<string>, entries: map<string, V>) {
    ghost predicate Valid() {
      (forall i, j :: 0 <= i < j < |keys| ==> keys[i] != keys[j]) &&
      (forall k :: k in entries <==> k in keys)
    }

    /** `obj[k] = v`: a new key goes to the end, an existing key keeps its place. */
    function Set(k: string, v: V): (d: Dict<V>)
      ensures Valid() ==> d.Valid()
      ensures d.entries == entries[k := v]
    {
      Dict(if k in entries then keys else keys + [k], entries[k := v])
    }
  }

  function EmptyDict<V>(): (d: Dict<V>)
    ensures d.Valid()
  {
    Dict([], map[])
  }

  /** A parameter value: a string (a type name or a field path), `null`, or
      any other JSON value (a number, a boolean, an array or an object). */
  datatype Arg = StrArg(s: string) | NullArg | OtherArg(id: nat)

  /** A type reference: a bare name, the array `[head, params]`, or `null`. */
  datatype TypeRef = Name(name: string) | Form(head: string, params: seq<(string, Arg)>) | Null

  /** The marker `'native'` that `types` holds for a native type. */
  const NativeMark: TypeRef := Name("native")

  /** Arrays are truthy; a string is truthy unless empty; `null` is falsy. */
  predicate TruthyRef(t: TypeRef) {
    t != Name("") && !t.Null?
  }

  /** `Object.values(params)` */
  function Values(params: seq<(string, Arg)>): seq<Arg> {
    seq(|params|, i requires 0 <= i < |params| => params[i].1)
  }

  /** `types[n] && types[n] !== 'native'`: the name holds a definition to compile. */
  predicate Defines(types: Dict<TypeRef>, n: string) {
    n in types.entries && TruthyRef(types.entries[n]) && types.entries[n] != NativeMark
  }

  /** A JavaScript function as the compiler sees it: its source text, and
      what it does when called as the maker of a parametrizable type. The
      model keeps what a maker does with the compiler handle that matters for
      scoping: it resolves the field paths `fieldsOf(params)` through
      `getField`, in order, and builds its code from the params and the
      aliases it received. */
  datatype Fn = Fn(
    source: string,
    fieldsOf: seq<(string, Arg)> -> seq<string>,
    build: (seq<(string, Arg)>, seq<string>) -> string)

  /** The `fn` of a registration: a number (a fixed size) or a function. */
  datatype Value = Num(n: int) | Func(f: Fn)

  predicate TruthyValue(v: Value) {
    v != Num(0)
  }

  /** `fn.toString()` */
  function SourceOf(v: Value): string {
    match v
    case Num(n) => IntToString(n)
    case Func(f) => f.source
  }

  /** What `native[type]` holds: the registered value itself, or the closure
      `(value) => { return fn }` that the size-of compiler makes around a
      numeric `fn`. */
  datatype NativeImpl = Given(v: Value) | Constant(n: int)

  /** One `[kind, fn]` entry given to `addTypes`. */
  datatype Registration = Registration(kind: string, fn: Value)

  /** The code `compileType` returns: a string, or `undefined`. */
  datatype Code = Text(s: string) | Missing

  /** The code as `'(' + code + ')'` prints it. */
  function CodeString(c: Code): string {
    match c
    case Text(s) => s
    case Missing => "undefined"
  }

  /** `!isNaN(code)` */
  predicate NotNaN(c: Code) {
    c.Text? && IsNumeric(c.s)
  }

  /** The bare-name branch of `compileType`, identical in the read and write
      compilers: the native marker compiles to `null`, every name in `types`
      (natives included) to a reference into the live table, anything else to
      its `primitiveTypes` entry, `undefined` when there is none. */
  function CompileBareName(types: Dict<TypeRef>, primitiveTypes: map<string, string>, n: string): (c: Code)
    ensures c.Missing? <==> n != "native" && !(n in types.entries && TruthyRef(types.entries[n])) && n !in primitiveTypes
    ensures n != "native" && n in types.entries && TruthyRef(types.entries[n]) ==> c == Text("ctx." + n)
  {
    if n == "native" then Text("null")
    else if n in types.entries && TruthyRef(types.entries[n]) then Text("ctx." + n)
    else if n in primitiveTypes then Text(primitiveTypes[n])
    else Missing
  }

  /** The start of the error for an array form with an unknown head. */
  const UnknownPrefix: string := "Unknown parametrizable type: "

  // ---------------------------------------------------------------------
  // addTypesToCompile

  predicate DistinctNames<V>(defs: seq<(string, V)>) {
    forall i, j :: 0 <= i < j < |defs| ==> defs[i].0 != defs[j].0
  }

  function Names<V>(defs: seq<(string, V)>): set<string> {
    set i | 0 <= i < |defs| :: defs[i].0
  }

  /** One step of `addTypesToCompile`: a name that already holds a definition keeps it. */
  function AddToCompile(types: Dict<TypeRef>, n: string, t: TypeRef): Dict<TypeRef> {
    if Defines(types, n) then types else types.Set(n, t)
  }

  /** `addTypesToCompile(defs)` */
  function AddAllToCompile(types: Dict<TypeRef>, defs: seq<(string, TypeRef)>): Dict<TypeRef>
    decreases |defs|
  {
    if defs == [] then types else AddAllToCompile(AddToCompile(types, defs[0].0, defs[0].1), defs[1..])
  }

  /** Merging keeps the dictionary well formed. */
  lemma {:induction false} AddAllToCompileValid(types: Dict<TypeRef>, defs: seq<(string, TypeRef)>)
    requires types.Valid()
    ensures AddAllToCompile(types, defs).Valid()
    decreases |defs|
  {
    if defs != [] {
      AddAllToCompileValid(AddToCompile(types, defs[0].0, defs[0].1), defs[1..]);
    }
  }

  /** The names of `defs` not yet among `keys`, in order. */
  function NewNames<V>(keys: seq<string>, defs: seq<(string, V)>): seq<string> {
    if defs == [] then []
    else (if defs[0].0 in keys then [] else [defs[0].0]) + NewNames(keys, defs[1..])
  }

  lemma {:induction false} NewNamesSkip<V>(keys: seq<string>, n: string, defs: seq<(string, V)>)
    requires forall d <- defs :: d.0 != n
    ensures NewNames(keys + [n], defs) == NewNames(keys, defs)
  {
    if defs != [] {
      NewNamesSkip(keys, n, defs[1..]);
    }
  }

  /** The tail of a list of distinct names has distinct names, none of them
      the head's. */
  lemma DistinctTail<V>(defs: seq<(string, V)>)
    requires DistinctNames(defs) && defs != []
    ensures DistinctNames(defs[1..])
    ensures forall d <- defs[1..] :: d.0 != defs[0].0
  {
    forall d <- defs[1..] ensures d.0 != defs[0].0 {
      var j :| 0 <= j < |defs[1..]| && defs[1..][j] == d;
      assert defs[j + 1] == d;
    }
  }

  /** One merge step appends the name exactly when it is new. */
  lemma AddToCompileKeys(types: Dict<TypeRef>, n: string, t: TypeRef)
    requires types.Valid()
    ensures AddToCompile(types, n, t).Valid()
    ensures AddToCompile(types, n, t).keys == types.keys + (if n in types.keys then [] else [n])
  {
  }

  lemma {:induction false} AddAllToCompileKeys(types: Dict<TypeRef>, defs: seq<(string, TypeRef)>)
    requires types.Valid() && DistinctNames(defs)
    ensures AddAllToCompile(types, defs).Valid()
    ensures AddAllToCompile(types, defs).keys == types.keys + NewNames(types.keys, defs)
    decreases |defs|
  {
    if defs != [] {
      var n := defs[0].0;
      var step := AddToCompile(types, n, defs[0].1);
      var rest := defs[1..];
      DistinctTail(defs);
      AddToCompileKeys(types, n, defs[0].1);
      AddAllToCompileKeys(step, rest);
      var added := if n in types.keys then [] else [n];
      assert NewNames(types.keys, defs) == added + NewNames(types.keys, rest);
      if n !in types.keys {
        NewNamesSkip(types.keys, n, rest);
      }
      assert NewNames(step.keys, rest) == NewNames(types.keys, rest);
      Assoc(types.keys, added, NewNames(types.keys, rest));
    }
  }

  lemma {:induction false} AddAllToCompileGiven(types: Dict<TypeRef>, defs: seq<(string, TypeRef)>, i: nat)
    requires DistinctNames(defs) && i < |defs|
    ensures defs[i].0 in AddAllToCompile(types, defs).entries
    ensures AddAllToCompile(types, defs).entries[defs[i].0] ==
      if Defines(types, defs[i].0) then types.entries[defs[i].0] else defs[i].1
    decreases |defs|
  {
    var step := AddToCompile(types, defs[0].0, defs[0].1);
    assert DistinctNames(defs[1..]);
    if i == 0 {
      AddAllToCompileOthers(step, defs[1..], defs[0].0);
    } else {
      assert defs[1..][i - 1] == defs[i];
      AddAllToCompileGiven(step, defs[1..], i - 1);
    }
  }

  lemma {:induction false} AddAllToCompileOthers(types: Dict<TypeRef>, defs: seq<(string, TypeRef)>, n: string)
    requires forall d <- defs :: d.0 != n
    ensures n in AddAllToCompile(types, defs).entries <==> n in types.entries
    ensures n in types.entries ==> AddAllToCompile(types, defs).entries[n] == types.entries[n]
    decreases |defs|
  {
    if defs != [] {
      assert forall d <- defs[1..] :: d in defs;
      AddAllToCompileOthers(AddToCompile(types, defs[0].0, defs[0].1), defs[1..], n);
    }
  }

  /** What `addTypesToCompile` does to every name: a name given a definition
      takes it unless it already held a non-native definition; every other
      name is untouched; new names are enumerated after the old ones. */
  lemma AddAllToCompileEffect(types: Dict<TypeRef>, defs: seq<(string, TypeRef)>)
    requires types.Valid() && DistinctNames(defs)
    ensures var r := AddAllToCompile(types, defs);
      r.Valid() &&
      r.keys == types.keys + NewNames(types.keys, defs) &&
      (forall i :: 0 <= i < |defs| ==>
        defs[i].0 in r.entries &&
        r.entries[defs[i].0] == if Defines(types, defs[i].0) then types.entries[defs[i].0] else defs[i].1) &&
      (forall n :: n !in Names(defs) ==>
        (n in r.entries <==> n in types.entries) && (n in types.entries ==> r.entries[n] == types.entries[n]))
  {
    var r := AddAllToCompile(types, defs);
    AddAllToCompileKeys(types, defs);
    forall i | 0 <= i < |defs|
      ensures defs[i].0 in r.entries
      ensures r.entries[defs[i].0] == if Defines(types, defs[i].0) then types.entries[defs[i].0] else defs[i].1
    {
      AddAllToCompileGiven(types, defs, i);
    }
    forall n | n !in Names(defs)
      ensures n in r.entries <==> n in types.entries
      ensures n in types.entries ==> r.entries[n] == types.entries[n]
    {
      assert forall d <- defs :: d.0 != n by {
        forall d <- defs ensures d.0 != n {
          var j :| 0 <= j < |defs| && defs[j] == d;
          assert defs[j].0 in Names(defs);
        }
      }
      AddAllToCompileOthers(types, defs, n);
    }
  }

  // ---------------------------------------------------------------------
  // addProtocol

  /** A protocol namespace: its optional `types` object and its sub-namespaces. */
  datatype Protocol = Protocol(types: Option<seq<(string, TypeRef)>>, children: map<string, Protocol>)

  /** The `types` objects met walking from `p` along `path`, root first.
      Once the path is used up `path.shift()` is `undefined`, which as a key
      reads `"undefined"`. */
  function TypesAlong(p: Protocol, path: seq<string>): seq<seq<(string, TypeRef)>>
    decreases p
  {
    var here := if p.types.Some? then [p.types.value] else [];
    var key := if path == [] then "undefined" else path[0];
    here + if key in p.children then TypesAlong(p.children[key], if path == [] then [] else path[1..]) else []
  }

  /** `addTypesToCompile` applied to each level in turn. */
  function AddLevels(types: Dict<TypeRef>, levels: seq<seq<(string, TypeRef)>>): Dict<TypeRef>
    decreases |levels|
  {
    if levels == [] then types else AddLevels(AddAllToCompile(types, levels[0]), levels[1..])
  }

  lemma {:induction false} AddLevelsValid(types: Dict<TypeRef>, levels: seq<seq<(string, TypeRef)>>)
    requires types.Valid()
    ensures AddLevels(types, levels).Valid()
    decreases |levels|
  {
    if levels != [] {
      AddAllToCompileValid(types, levels[0]);
      AddLevelsValid(AddAllToCompile(types, levels[0]), levels[1..]);
    }
  }

  /** Merging a walk that starts with one level is merging that level, then the rest. */
  lemma AddLevelsCons(types: Dict<TypeRef>, level: seq<(string, TypeRef)>, rest: seq<seq<(string, TypeRef)>>)
    ensures AddLevels(types, [level] + rest) == AddLevels(AddAllToCompile(types, level), rest)
  {
    assert ([level] + rest)[1..] == rest;
  }

  /** Merging a walk of at most one level and then another walk. */
  lemma AddLevelsAppend(types: Dict<TypeRef>, a: seq<seq<(string, TypeRef)>>, b: seq<seq<(string, TypeRef)>>)
    requires |a| <= 1
    ensures AddLevels(types, a + b) == AddLevels(AddLevels(types, a), b)
  {
    if a != [] {
      assert a == [a[0]];
      AddLevelsCons(types, a[0], b);
      AddLevelsCons(types, a[0], []);
    } else {
      assert a + b == b;
    }
  }

  /** `t` is a definition that, once stored, is never replaced. */
  predicate Settles(t: TypeRef) {
    TruthyRef(t) && t != NativeMark
  }

  /** A name that holds a definition keeps it through any further merges. */
  lemma {:induction false} DefinedStays(types: Dict<TypeRef>, levels: seq<seq<(string, TypeRef)>>, n: string)
    requires Defines(types, n)
    ensures Defines(AddLevels(types, levels), n)
    ensures AddLevels(types, levels).entries[n] == types.entries[n]
    decreases |levels|
  {
    if levels != [] {
      DefinedStaysOneLevel(types, levels[0], n);
      DefinedStays(AddAllToCompile(types, levels[0]), levels[1..], n);
    }
  }

  lemma {:induction false} DefinedStaysOneLevel(types: Dict<TypeRef>, defs: seq<(string, TypeRef)>, n: string)
    requires Defines(types, n)
    ensures Defines(AddAllToCompile(types, defs), n)
    ensures AddAllToCompile(types, defs).entries[n] == types.entries[n]
    decreases |defs|
  {
    if defs != [] {
      var step := AddToCompile(types, defs[0].0, defs[0].1);
      assert step.entries[n] == types.entries[n];
      DefinedStaysOneLevel(step, defs[1..], n);
    }
  }

  /** A level that gives `n` no settling definition leaves `n` without one. */
  lemma {:induction false} UndefinedStaysOneLevel(types: Dict<TypeRef>, defs: seq<(string, TypeRef)>, n: string)
    requires !Defines(types, n)
    requires forall d <- defs :: d.0 == n ==> !Settles(d.1)
    ensures !Defines(AddAllToCompile(types, defs), n)
    decreases |defs|
  {
    if defs != [] {
      var step := AddToCompile(types, defs[0].0, defs[0].1);
      assert !Defines(step, n);
      assert forall d <- defs[1..] :: d in defs;
      UndefinedStaysOneLevel(step, defs[1..], n);
    }
  }

  /** Along an `addProtocol` walk the shallowest settling definition of a name
      wins over every deeper one. */
  lemma {:induction false} ShallowerWins(types: Dict<TypeRef>, levels: seq<seq<(string, TypeRef)>>, i: nat, j: nat)
    requires types.Valid()
    requires forall k :: 0 <= k < |levels| ==> DistinctNames(levels[k])
    requires i < |levels| && j < |levels[i]| && Settles(levels[i][j].1)
    requires !Defines(types, levels[i][j].0)
    requires forall k, d :: 0 <= k < i && d in levels[k] && d.0 == levels[i][j].0 ==> !Settles(d.1)
    ensures levels[i][j].0 in AddLevels(types, levels).entries
    ensures AddLevels(types, levels).entries[levels[i][j].0] == levels[i][j].1
    decreases i
  {
    var (n, t) := levels[i][j];
    var step := AddAllToCompile(types, levels[0]);
    AddAllToCompileEffect(types, levels[0]);
    if i == 0 {
      assert step.entries[n] == t;
      DefinedStays(step, levels[1..], n);
    } else {
      UndefinedStaysOneLevel(types, levels[0], n);
      assert levels[1..][i - 1] == levels[i];
      ShallowerWins(step, levels[1..], i - 1, j);
    }
  }
}
