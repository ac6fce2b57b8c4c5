/**
 * The compiler object. Its registry (`primitiveTypes`, `native`, `context`,
 * `types`, `parameterizableTypes`) and its `scopeStack` are fields that the
 * methods update in place; `op` says which of the three compilers it is.
 * Every method is proved to leave the object as the matching definition of
 * `Compilation` says, and the properties of those definitions are proved
 * there.
 */
module Compilers {
  import opened Js
  import opened Scopes
  import opened Registry
  import opened Compilation

  /** The outcome of a `map` over a list whose first elements gave `done`. */
  function Continue<T>(done: seq<T>, rest: (Result<seq<T>>, seq<Scope>)): (Result<seq<T>>, seq<Scope>) {
    if rest.0.Err? then (Err(rest.0.error), rest.1) else (Ok(done + rest.0.value), rest.1)
  }

  lemma ContinueNothing<T>(rest: (Result<seq<T>>, seq<Scope>))
    ensures Continue([], rest) == rest
  {
    if rest.0.Ok? {
      assert [] + rest.0.value == rest.0.value;
    }
  }

  /** One more element done is one more element in front of the rest. */
  lemma ContinueAppend<T>(done: seq<T>, x: T, rest: (Result<seq<T>>, seq<Scope>))
    ensures Continue(done + [x], rest) == Continue(done, Continue([x], rest))
  {
    if rest.0.Ok? {
      Assoc(done, [x], rest.0.value);
    }
  }

  class Compiler {
    const op: Op
    var primitiveTypes: map<string, string>
    var native: map<string, NativeImpl>
    var context: Dict<string>
    var types: Dict<TypeRef>
    var scopeStack: seq<Scope>
    var parameterizableTypes: map<string, Value>

    /** The registry as a value. */
    function Snapshot(): Tables
      reads this
    {
      Tables(primitiveTypes, native, context, types, parameterizableTypes)
    }

    ghost predicate Valid()
      reads this
    {
      Snapshot().Valid()
    }

    /** A compiler built from its libraries of maker and helper types, then
        the default numeric and utility natives. */
    constructor (op: Op, libraries: seq<seq<(string, Registration)>>, defaults: seq<(string, Value)>)
      ensures this.op == op && Valid()
      ensures Snapshot() == Initial(op, libraries, defaults) && scopeStack == []
    {
      this.op := op;
      primitiveTypes := map[];
      native := map[];
      context := EmptyDict();
      types := EmptyDict();
      scopeStack := [];
      parameterizableTypes := map[];
      new;
      assert Snapshot() == EmptyTables();
      AddLibraries(libraries);
      AddDefaults(defaults);
    }

    /** The libraries registered one after the other. */
    method AddLibraries(libraries: seq<seq<(string, Registration)>>)
      requires Valid()
      modifies this
      ensures Valid()
      ensures Snapshot() == RegisterLibraries(op, old(Snapshot()), libraries) && scopeStack == old(scopeStack)
    {
      var i := 0;
      while i < |libraries|
        invariant 0 <= i <= |libraries| && Valid() && scopeStack == old(scopeStack)
        invariant RegisterLibraries(op, Snapshot(), libraries[i..]) == RegisterLibraries(op, old(Snapshot()), libraries)
      {
        assert libraries[i..][1..] == libraries[i + 1..];
        AddTypes(libraries[i]);
        i := i + 1;
      }
    }

    /** The default natives added one after the other. */
    method AddDefaults(defaults: seq<(string, Value)>)
      requires Valid()
      modifies this
      ensures Valid()
      ensures Snapshot() == AddNatives(op, old(Snapshot()), defaults) && scopeStack == old(scopeStack)
    {
      var j := 0;
      while j < |defaults|
        invariant 0 <= j <= |defaults| && Valid() && scopeStack == old(scopeStack)
        invariant AddNatives(op, Snapshot(), defaults[j..]) == AddNatives(op, old(Snapshot()), defaults)
      {
        assert defaults[j..][1..] == defaults[j + 1..];
        AddNativeType(defaults[j].0, defaults[j].1);
        j := j + 1;
      }
    }

    // -------------------------------------------------------------------
    // registration

    method AddNativeType(t: string, fn: Value)
      requires Valid()
      modifies this
      ensures Valid()
      ensures Snapshot() == AddNative(op, old(Snapshot()), t, fn) && scopeStack == old(scopeStack)
    {
      primitiveTypes := primitiveTypes[t := "native." + t];
      native := native[t := NativeFor(op, fn)];
      types := types.Set(t, NativeMark);
    }

    method AddContextType(t: string, fn: Value)
      requires Valid()
      modifies this
      ensures Valid()
      ensures Snapshot() == AddContext(old(Snapshot()), t, fn) && scopeStack == old(scopeStack)
    {
      primitiveTypes := primitiveTypes[t := "ctx." + t];
      context := context.Set(t, SourceOf(fn));
    }

    method AddParametrizableType(t: string, maker: Value)
      requires Valid()
      modifies this
      ensures Valid()
      ensures Snapshot() == AddMaker(old(Snapshot()), t, maker) && scopeStack == old(scopeStack)
    {
      parameterizableTypes := parameterizableTypes[t := maker];
    }

    method AddTypes(regs: seq<(string, Registration)>)
      requires Valid()
      modifies this
      ensures Valid()
      ensures Snapshot() == RegisterAll(op, old(Snapshot()), regs) && scopeStack == old(scopeStack)
    {
      var i := 0;
      while i < |regs|
        invariant 0 <= i <= |regs| && Valid() && scopeStack == old(scopeStack)
        invariant RegisterAll(op, Snapshot(), regs[i..]) == RegisterAll(op, old(Snapshot()), regs)
      {
        var (t, reg) := regs[i];
        if reg.kind == "native" {
          AddNativeType(t, reg.fn);
        } else if reg.kind == "context" {
          AddContextType(t, reg.fn);
        } else if reg.kind == "parametrizable" {
          AddParametrizableType(t, reg.fn);
        }
        assert regs[i..][1..] == regs[i + 1..];
        i := i + 1;
      }
    }

    method AddTypesToCompile(defs: seq<(string, TypeRef)>)
      requires Valid()
      modifies this
      ensures Valid()
      ensures types == AddAllToCompile(old(types), defs)
      ensures primitiveTypes == old(primitiveTypes) && native == old(native) && context == old(context)
      ensures parameterizableTypes == old(parameterizableTypes) && scopeStack == old(scopeStack)
    {
      AddAllToCompileValid(types, defs);
      var i := 0;
      while i < |defs|
        invariant 0 <= i <= |defs|
        invariant AddAllToCompile(types, defs[i..]) == AddAllToCompile(old(types), defs)
        invariant primitiveTypes == old(primitiveTypes) && native == old(native) && context == old(context)
        invariant parameterizableTypes == old(parameterizableTypes) && scopeStack == old(scopeStack)
      {
        var (n, t) := defs[i];
        if !(n in types.entries && TruthyRef(types.entries[n])) || types.entries[n] == NativeMark {
          types := types.Set(n, t);
        }
        assert defs[i..][1..] == defs[i + 1..];
        i := i + 1;
      }
    }

    /** `addProtocol(protocolData, path)`: the walk works on its own copy of
        the path (a value here), so the caller's path is never consumed. */
    method AddProtocol(p: Protocol, path: seq<string>)
      requires Valid()
      modifies this
      ensures Valid()
      ensures types == AddLevels(old(types), TypesAlong(p, path))
      ensures primitiveTypes == old(primitiveTypes) && native == old(native) && context == old(context)
      ensures parameterizableTypes == old(parameterizableTypes) && scopeStack == old(scopeStack)
    {
      RecursiveAddTypes(p, path);
    }

    method RecursiveAddTypes(p: Protocol, path: seq<string>)
      requires Valid()
      modifies this
      ensures Valid()
      ensures types == AddLevels(old(types), TypesAlong(p, path))
      ensures primitiveTypes == old(primitiveTypes) && native == old(native) && context == old(context)
      ensures parameterizableTypes == old(parameterizableTypes) && scopeStack == old(scopeStack)
      decreases p
    {
      ghost var before := types;
      ghost var here: seq<seq<(string, TypeRef)>> := [];
      if p.types.Some? {
        AddTypesToCompile(p.types.value);
        here := [p.types.value];
        AddLevelsCons(before, p.types.value, []);
      }
      assert types == AddLevels(before, here);
      var key := if path == [] then "undefined" else path[0];
      var rest := if path == [] then [] else path[1..];
      if key in p.children {
        RecursiveAddTypes(p.children[key], rest);
        AddLevelsAppend(before, here, TypesAlong(p.children[key], rest));
      } else {
        assert here + [] == here;
      }
    }

    // -------------------------------------------------------------------
    // field scopes

    /** `getField(name)` */
    method GetField(name: string) returns (r: Result<string>)
      requires Valid()
      modifies this
      ensures Valid()
      ensures (r, scopeStack) == GetFieldSpec(old(scopeStack), name)
      ensures Snapshot() == old(Snapshot())
    {
      ghost var stack := scopeStack;
      ghost var res := Resolve(stack, Split(name, '/'), |stack| - 1);
      assert GetFieldSpec(stack, name) == Apply(stack, res);
      var path := Split(name, '/');
      var i := |scopeStack| - 1;
      while path != []
        invariant scopeStack == stack && Snapshot() == old(Snapshot())
        invariant Resolve(stack, path, i) == res
        decreases |path|
      {
        var field := path[0];
        assert path == [field] + path[1..];
        path := path[1..];
        ResolveCons(stack, field, path, i);
        if field == ".." {
          i := i - 1;
          continue;
        }
        if !(0 <= i < |scopeStack|) {
          return Throw("Cannot read properties of undefined (reading '" + field + "')");
        }
        r := AtLevel(field, path, i);
        return;
      }
      return Throw("Unknown field ");
    }

    /** The part of `getField` at the addressed scope: an alias bound there
        is used (with the rest of the path as member accesses), a longer path
        throws, and a last segment gets a fresh alias bound in that scope. */
    method AtLevel(field: string, rest: seq<string>, i: int) returns (r: Result<string>)
      requires Valid() && field != ".." && 0 <= i < |scopeStack|
      modifies this
      ensures Valid()
      ensures (r, scopeStack) == Apply(old(scopeStack), Resolve(old(scopeStack), [field] + rest, i))
      ensures Snapshot() == old(Snapshot())
    {
      assert ([field] + rest)[0] == field && ([field] + rest)[1..] == rest;
      var scope := scopeStack[i];
      if Binds(scope, field) {
        return Ok(scope[field] + Members(rest));
      }
      if rest != [] {
        return Throw("Cannot access properties of undefined field");
      }
      var count := CountCollisions(field, i);
      var alias := field + Suffix(count);
      scopeStack := scopeStack[i := scope[field := alias]];
      return Ok(alias);
    }

    /** The collision count of a fresh alias for `field` in scope `i`: one for
        a reserved name, plus one per scope below `i` that binds the field. */
    method CountCollisions(field: string, i: nat) returns (count: nat)
      requires i < |scopeStack|
      ensures count == Collisions(scopeStack, i, field)
    {
      count := 0;
      if field in Reserved {
        count := count + 1;
      }
      var j := 0;
      while j < i
        invariant 0 <= j <= i
        invariant count == (if field in Reserved then 1 else 0) + CountBinding(scopeStack, field, j)
      {
        if field in scopeStack[j] && scopeStack[j][field] != "" {
          count := count + 1;
        }
        j := j + 1;
      }
    }

    /** `args.map(name => this.getField(name))` */
    method ResolveArgs(args: seq<Arg>) returns (r: Result<seq<string>>)
      requires Valid()
      modifies this
      ensures Valid()
      ensures (r, scopeStack) == ResolveAll(old(scopeStack), args)
      ensures Snapshot() == old(Snapshot())
    {
      var names: seq<string> := [];
      var i := 0;
      assert args[i..] == args;
      ContinueNothing(ResolveAll(scopeStack, args));
      while i < |args|
        invariant 0 <= i <= |args| && Valid() && Snapshot() == old(Snapshot())
        invariant Continue(names, ResolveAll(scopeStack, args[i..])) == ResolveAll(old(scopeStack), args)
      {
        assert args[i..][0] == args[i] && args[i..][1..] == args[i + 1..];
        match args[i] {
          case NullArg =>
            return Throw("Cannot read properties of null (reading 'split')");
          case OtherArg(_) =>
            return Throw("name.split is not a function");
          case StrArg(name) =>
            var alias := GetField(name);
            if alias.Err? {
              return Err(alias.error);
            }
            ContinueAppend(names, alias.value, ResolveAll(scopeStack, args[i + 1..]));
            names := names + [alias.value];
        }
        i := i + 1;
      }
      assert args[i..] == [];
      assert names + [] == names;
      r := Ok(names);
    }

    /** A maker called with this compiler: it resolves its field paths, then
        builds its code. */
    method CallMaker(f: Fn, params: seq<(string, Arg)>) returns (r: Result<Code>)
      requires Valid()
      modifies this
      ensures Valid()
      ensures (r, scopeStack) == RunMaker(f, old(scopeStack), params)
      ensures Snapshot() == old(Snapshot())
    {
      var aliases := ResolveArgs(AsArgs(f.fieldsOf(params)));
      if aliases.Err? {
        return Err(aliases.error);
      }
      r := Ok(Text(f.build(params, aliases.value)));
    }

    // -------------------------------------------------------------------
    // compileType and callType

    /** `compileType(type)` */
    method CompileType(t: TypeRef) returns (r: Result<Code>)
      requires Valid()
      modifies this
      ensures Valid()
      ensures (r, scopeStack) == CompileSpec(op, old(Snapshot()), old(scopeStack), t)
      ensures Snapshot() == old(Snapshot())
      decreases Rank(t), 0
    {
      if !t.Form? {
        var n := if t.Null? then "null" else t.name;
        if n == "native" {
          return Ok(Text("null"));
        }
        if op == SizeOf && n in primitiveTypes && IsNumeric(primitiveTypes[n]) {
          return Ok(Text(primitiveTypes[n]));
        }
        if n in types.entries && TruthyRef(types.entries[n]) {
          return Ok(Text("ctx." + n));
        }
        r := Ok(if n in primitiveTypes then Text(primitiveTypes[n]) else Missing);
      } else {
        var Form(head, params) := t;
        if head in parameterizableTypes && TruthyValue(parameterizableTypes[head]) {
          match parameterizableTypes[head] {
            case Func(f) =>
              r := CallMaker(f, params);
            case Num(_) =>
              r := Throw("this.parameterizableTypes[type[0]] is not a function");
          }
        } else if Defines(types, head) {
          var call := CallType("value", Name(head), "offset", Values(params));
          if call.Err? {
            return Err(call.error);
          }
          r := Ok(Text(WrapCode(op, "return " + call.value, [])));
        } else {
          r := Err(UnknownType(op, head));
        }
      }
    }

    /** `callType(value, type, offsetExpr, args)`: the read compiler ignores
        `value`, the size-of compiler `offsetExpr`. */
    method CallType(value: string, t: TypeRef, offsetExpr: string, args: seq<Arg>) returns (r: Result<string>)
      requires Valid()
      modifies this
      ensures Valid()
      ensures (r, scopeStack) == CallSpec(op, old(Snapshot()), old(scopeStack), value, t, offsetExpr, args)
      ensures Snapshot() == old(Snapshot())
      decreases Rank(t), 1
    {
      if t.Form? && Defines(types, t.head) {
        r := CallType(value, Name(t.head), offsetExpr, Values(t.params));
        return;
      }
      if IsContainer(t) {
        scopeStack := scopeStack + [map[]];
      }
      var code := CompileType(t);
      if code.Err? {
        return Err(code.error);
      }
      if IsContainer(t) {
        scopeStack := Pop(scopeStack);
      }
      if op == SizeOf && NotNaN(code.value) {
        return Ok(code.value.s);
      }
      var fields := ResolveArgs(args);
      if fields.Err? {
        return Err(fields.error);
      }
      r := Ok(Invocation(op, CodeString(code.value), value, offsetExpr, fields.value));
    }

    // -------------------------------------------------------------------
    // generate

    /** `for (const type in this.context) functions[type] = this.context[type]`:
        a copy of the context, keys in the same order. */
    method CopyContext() returns (functions: Dict<string>)
      requires Valid()
      ensures functions == context
    {
      functions := EmptyDict();
      var i := 0;
      while i < |context.keys|
        invariant 0 <= i <= |context.keys|
        invariant functions.keys == context.keys[..i]
        invariant forall n :: n in functions.entries <==> n in context.keys[..i]
        invariant forall n :: n in functions.entries ==> n in context.entries && functions.entries[n] == context.entries[n]
      {
        var n := context.keys[i];
        assert n !in context.keys[..i];
        assert context.keys[..i + 1] == context.keys[..i] + [n];
        functions := functions.Set(n, context.entries[n]);
        i := i + 1;
      }
      assert context.keys[..i] == context.keys;
    }

    /** The table entry `generate` makes for the type `n`: the native
        reference, or the compiled body (forwarded when it is a `ctx`
        reference, wrapped when it is numeric). */
    method Entry(n: string) returns (r: Result<string>)
      requires Valid() && n in types.entries
      modifies this
      ensures Valid()
      ensures (r, scopeStack) == EntryFor(op, old(Snapshot()), old(scopeStack), n)
      ensures Snapshot() == old(Snapshot())
    {
      if types.entries[n] == NativeMark {
        return Ok("native." + n);
      }
      var code := CompileType(types.entries[n]);
      if code.Err? {
        return Err(code.error);
      }
      if code.value.Missing? {
        return Throw("Cannot read properties of undefined (reading 'startsWith')");
      }
      var body := code.value.s;
      if StartsWith(body, "ctx") {
        body := Forward(body);
        NotNumeric(body);
      }
      if IsNumeric(body) {
        body := WrapCode(op, "  return " + body, []);
      }
      r := Ok(body);
    }

    /** `generate()` */
    method Generate() returns (r: Result<string>)
      requires Valid()
      modifies this
      ensures Valid()
      ensures (r, scopeStack) == GenerateSpec(op, old(Snapshot()))
      ensures Snapshot() == old(Snapshot())
    {
      scopeStack := [map[]];
      var functions := CopyContext();
      var k := 0;
      while k < |types.keys|
        invariant 0 <= k <= |types.keys| && Valid() && Snapshot() == old(Snapshot())
        invariant GenerateFrom(op, Snapshot(), scopeStack, functions, k) == GenerateFrom(op, Snapshot(), [map[]], context, 0)
      {
        var n := types.keys[k];
        if !(n in functions.entries && functions.entries[n] != "") {
          var entry := Entry(n);
          if entry.Err? {
            return Err(entry.error);
          }
          functions := functions.Set(n, entry.value);
        } else {
          GenerateFromSkip(op, Snapshot(), scopeStack, functions, k);
        }
        k := k + 1;
      }
      r := Ok(Render(functions));
    }
  }
}
