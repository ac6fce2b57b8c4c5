/**
 * What the three compilers compute, as functions of the registry and the
 * scope stack: registration, `compileType` and `callType` (mutually
 * recursive through user types), and `generate`. The imperative `Compiler`
 * class is proved against these definitions.
 */
module Compilation {
  import opened Js
  import opened Source
  import opened Scopes
  import opened Registry
  import opened Json
  import ReadCompiler
  import WriteCompiler
  import SizeOfCompiler

  /** Which of the three compilers: they share the registry logic and differ
      in their string builders. */
  datatype Op = Read | Write | SizeOf

  /** The registry of one compiler. `makers` is `parameterizableTypes`. */
  datatype Tables = Tables(
    primitiveTypes: map<string, string>,
    native: map<string, NativeImpl>,
    context: Dict<string>,
    types: Dict<TypeRef>,
    makers: map<string, Value>)
  {
    /** The objects that are enumerated keep their keys distinct, and every
        primitive entry was made by a registration. */
    ghost predicate Valid() {
      context.Valid() && types.Valid() &&
      forall t :: t in primitiveTypes ==> primitiveTypes[t] == "native." + t || primitiveTypes[t] == "ctx." + t
    }
  }

  function EmptyTables(): (tb: Tables)
    ensures tb.Valid()
  {
    Tables(map[], map[], EmptyDict(), EmptyDict(), map[])
  }

  // ---------------------------------------------------------------------
  // registration

  /** What `native[type]` receives: only the size-of compiler wraps numbers. */
  function NativeFor(op: Op, fn: Value): NativeImpl {
    if op == SizeOf then SizeOfCompiler.NativeEntry(fn) else Given(fn)
  }

  /** `addNativeType(t, fn)` */
  function AddNative(op: Op, tb: Tables, t: string, fn: Value): (r: Tables)
    ensures tb.Valid() ==> r.Valid()
    ensures r.types.entries == tb.types.entries[t := NativeMark]
    ensures r.primitiveTypes == tb.primitiveTypes[t := "native." + t]
    ensures r.native == tb.native[t := NativeFor(op, fn)]
    ensures op == SizeOf && fn.Num? ==> r.native[t] == Constant(fn.n)
    ensures !(op == SizeOf && fn.Num?) ==> r.native[t] == Given(fn)
    ensures r.context == tb.context && r.makers == tb.makers
  {
    tb.(primitiveTypes := tb.primitiveTypes[t := "native." + t],
        native := tb.native[t := NativeFor(op, fn)],
        types := tb.types.Set(t, NativeMark))
  }

  /** `addContextType(t, fn)`: `types` is not touched. */
  function AddContext(tb: Tables, t: string, fn: Value): (r: Tables)
    ensures tb.Valid() ==> r.Valid()
    ensures r.context.entries == tb.context.entries[t := SourceOf(fn)]
    ensures r.primitiveTypes == tb.primitiveTypes[t := "ctx." + t]
    ensures r.types == tb.types && r.native == tb.native && r.makers == tb.makers
  {
    tb.(primitiveTypes := tb.primitiveTypes[t := "ctx." + t], context := tb.context.Set(t, SourceOf(fn)))
  }

  /** `addParametrizableType(t, maker)` */
  function AddMaker(tb: Tables, t: string, maker: Value): Tables {
    tb.(makers := tb.makers[t := maker])
  }

  predicate KnownKind(kind: string) {
    kind == "native" || kind == "context" || kind == "parametrizable"
  }

  /** One `[type, [kind, fn]]` entry of `addTypes`. */
  function Register(op: Op, tb: Tables, t: string, reg: Registration): Tables {
    if reg.kind == "native" then AddNative(op, tb, t, reg.fn)
    else if reg.kind == "context" then AddContext(tb, t, reg.fn)
    else if reg.kind == "parametrizable" then AddMaker(tb, t, reg.fn)
    else tb
  }

  /** `addTypes(types)`, entry by entry in key order. */
  function RegisterAll(op: Op, tb: Tables, regs: seq<(string, Registration)>): Tables
    decreases |regs|
  {
    if regs == [] then tb else RegisterAll(op, Register(op, tb, regs[0].0, regs[0].1), regs[1..])
  }

  /** The registrations whose kind `addTypes` knows. */
  function KnownOnly(regs: seq<(string, Registration)>): (r: seq<(string, Registration)>)
    ensures forall e <- r :: KnownKind(e.1.kind)
  {
    if regs == [] then []
    else (if KnownKind(regs[0].1.kind) then [regs[0]] else []) + KnownOnly(regs[1..])
  }

  /** Entries of an unknown kind are ignored: dropping them changes nothing. */
  lemma {:induction false} RegisterAllIgnoresUnknown(op: Op, tb: Tables, regs: seq<(string, Registration)>)
    ensures RegisterAll(op, tb, regs) == RegisterAll(op, tb, KnownOnly(regs))
    decreases |regs|
  {
    if regs != [] {
      var rest := KnownOnly(regs[1..]);
      if KnownKind(regs[0].1.kind) {
        assert KnownOnly(regs) == [regs[0]] + rest;
        assert ([regs[0]] + rest)[1..] == rest;
      } else {
        assert KnownOnly(regs) == rest;
      }
      RegisterAllIgnoresUnknown(op, Register(op, tb, regs[0].0, regs[0].1), regs[1..]);
    }
  }

  /** Registration keeps the registry well formed. */
  lemma {:induction false} RegisterAllValid(op: Op, tb: Tables, regs: seq<(string, Registration)>)
    requires tb.Valid()
    ensures RegisterAll(op, tb, regs).Valid()
    decreases |regs|
  {
    if regs != [] {
      RegisterAllValid(op, Register(op, tb, regs[0].0, regs[0].1), regs[1..]);
    }
  }

  /** The constructor's loops over the default numeric and utility types. */
  function AddNatives(op: Op, tb: Tables, defaults: seq<(string, Value)>): Tables
    decreases |defaults|
  {
    if defaults == [] then tb else AddNatives(op, AddNative(op, tb, defaults[0].0, defaults[0].1), defaults[1..])
  }

  lemma {:induction false} AddNativesValid(op: Op, tb: Tables, defaults: seq<(string, Value)>)
    requires tb.Valid()
    ensures AddNatives(op, tb, defaults).Valid()
    decreases |defaults|
  {
    if defaults != [] {
      AddNativesValid(op, AddNative(op, tb, defaults[0].0, defaults[0].1), defaults[1..]);
    }
  }

  /** The registry a freshly constructed compiler holds: the library entries
      first, then the default natives. */
  function Initial(op: Op, libraries: seq<seq<(string, Registration)>>, defaults: seq<(string, Value)>): (tb: Tables)
    ensures tb.Valid()
  {
    InitialValid(op, EmptyTables(), libraries);
    AddNativesValid(op, RegisterLibraries(op, EmptyTables(), libraries), defaults);
    AddNatives(op, RegisterLibraries(op, EmptyTables(), libraries), defaults)
  }

  function RegisterLibraries(op: Op, tb: Tables, libraries: seq<seq<(string, Registration)>>): Tables
    decreases |libraries|
  {
    if libraries == [] then tb else RegisterLibraries(op, RegisterAll(op, tb, libraries[0]), libraries[1..])
  }

  lemma {:induction false} InitialValid(op: Op, tb: Tables, libraries: seq<seq<(string, Registration)>>)
    requires tb.Valid()
    ensures RegisterLibraries(op, tb, libraries).Valid()
    decreases |libraries|
  {
    if libraries != [] {
      RegisterAllValid(op, tb, libraries[0]);
      InitialValid(op, RegisterAll(op, tb, libraries[0]), libraries[1..]);
    }
  }

  /** A native registration is replaced by the next definition merged in,
      while a context registration leaves `types` to the definitions. */
  lemma NativeIsReplaced(op: Op, tb: Tables, t: string, fn: Value, def: TypeRef)
    ensures var r := AddNative(op, tb, t, fn);
      AddToCompile(r.types, t, def).entries[t] == def
  {
  }

  // ---------------------------------------------------------------------
  // compileType and callType

  /** Array forms rank above bare names: a form compiles through its head. */
  function Rank(t: TypeRef): nat {
    if t.Form? then 1 else 0
  }

  /** The bare-name branch of `compileType`. */
  function CompileName(op: Op, tb: Tables, n: string): Code {
    if op == SizeOf then SizeOfCompiler.CompileName(tb.types, tb.primitiveTypes, n)
    else CompileBareName(tb.types, tb.primitiveTypes, n)
  }

  /** `wrapCode(code, args)` */
  function WrapCode(op: Op, code: string, args: seq<string>): string {
    match op
    case Read => ReadCompiler.WrapCode(code, args)
    case Write => WriteCompiler.WrapCode(code, args)
    case SizeOf => SizeOfCompiler.WrapCode(code, args)
  }

  /** The call expression `callType` returns once the fields are resolved. */
  function Invocation(op: Op, code: string, value: string, offsetExpr: string, fields: seq<string>): string {
    match op
    case Read => ReadCompiler.Invocation(code, offsetExpr, fields)
    case Write => WriteCompiler.Invocation(code, value, offsetExpr, fields)
    case SizeOf => SizeOfCompiler.Invocation(code, value, fields)
  }

  function UnknownType(op: Op, head: string): Error {
    match op
    case Read => Error(ReadCompiler.UnknownTypeMessage(head), None)
    case Write => Error(WriteCompiler.UnknownTypeMessage(head), None)
    case SizeOf => Error(SizeOfCompiler.UnknownTypeMessage(head), None)
  }

  /** `args.map(name => this.getField(name))`: left to right, each call seeing
      the scopes the previous one left; a value that is not a string has no
      `split` method. */
  function ResolveAll(stack: seq<Scope>, args: seq<Arg>): (r: (Result<seq<string>>, seq<Scope>))
    ensures |r.1| == |stack| && Extends(stack, r.1)
    ensures r.0.Ok? ==> |r.0.value| == |args|
    ensures r.0.Ok? ==> forall a <- args :: a.StrArg?
    ensures args != [] && !args[0].StrArg? ==> r.0.Err? && r.1 == stack
    decreases |args|
  {
    if args == [] then (Ok([]), stack)
    else match args[0]
      case NullArg => (Throw("Cannot read properties of null (reading 'split')"), stack)
      case OtherArg(_) => (Throw("name.split is not a function"), stack)
      case StrArg(name) =>
        GetFieldExtends(stack, name);
        var (first, s1) := GetFieldSpec(stack, name);
        if first.Err? then (Err(first.error), s1)
        else
          var (more, s2) := ResolveAll(s1, args[1..]);
          if more.Err? then (Err(more.error), s2) else (Ok([first.value] + more.value), s2)
  }

  function AsArgs(names: seq<string>): seq<Arg> {
    seq(|names|, i requires 0 <= i < |names| => StrArg(names[i]))
  }

  /** A maker called with the compiler and the params: it resolves its field
      paths in the current scopes, then builds its code. */
  function RunMaker(f: Fn, stack: seq<Scope>, params: seq<(string, Arg)>): (r: (Result<Code>, seq<Scope>))
    ensures |r.1| == |stack| && Extends(stack, r.1)
  {
    var (aliases, s) := ResolveAll(stack, AsArgs(f.fieldsOf(params)));
    if aliases.Err? then (Err(aliases.error), s) else (Ok(Text(f.build(params, aliases.value))), s)
  }

  /** `this.scopeStack.pop()`, which leaves an empty stack empty. */
  function Pop(stack: seq<Scope>): seq<Scope> {
    if stack == [] then [] else stack[..|stack| - 1]
  }

  /** `type` is the array form `['container', …]`. */
  predicate IsContainer(t: TypeRef) {
    t.Form? && t.head == "container"
  }

  /** `compileType(type)`: a maker takes priority over a user type of the
      same name; a user type compiles to a wrapper around the call of its
      bare name; any other head is an error. With makers as modelled here
      (they only resolve fields), compiling never changes the depth of the
      scope stack and never changes an alias handed out. */
  function CompileSpec(op: Op, tb: Tables, stack: seq<Scope>, t: TypeRef): (r: (Result<Code>, seq<Scope>))
    ensures |r.1| == |stack| && Extends(stack, r.1)
    decreases Rank(t), 0
  {
    match t
    case Name(n) => (Ok(CompileName(op, tb, n)), stack)
    case Null => (Ok(CompileName(op, tb, "null")), stack)
    case Form(head, params) =>
      if head in tb.makers && TruthyValue(tb.makers[head]) then
        match tb.makers[head]
        case Func(f) => RunMaker(f, stack, params)
        case Num(_) => (Throw("this.parameterizableTypes[type[0]] is not a function"), stack)
      else if Defines(tb.types, head) then
        var (c, s) := CallSpec(op, tb, stack, "value", Name(head), "offset", Values(params));
        if c.Err? then (Err(c.error), s) else (Ok(Text(WrapCode(op, "return " + c.value, []))), s)
      else (Err(UnknownType(op, head)), stack)
  }

  /** `callType(value, type, offsetExpr, args)`: a form naming a user type is
      redirected to the bare name with the params' values as args; a
      container form compiles inside one extra scope, popped before the args
      are resolved in the caller's scopes. On success the depth is unchanged;
      a container whose compilation throws leaves its scope pushed. */
  function CallSpec(op: Op, tb: Tables, stack: seq<Scope>, value: string, t: TypeRef, offsetExpr: string, args: seq<Arg>)
    : (r: (Result<string>, seq<Scope>))
    ensures Extends(stack, r.1)
    ensures r.0.Ok? ==> |r.1| == |stack|
    ensures |r.1| == |stack| || (|r.1| == |stack| + 1 && r.0.Err? && IsContainer(t) && !Defines(tb.types, t.head))
    decreases Rank(t), 1
  {
    if t.Form? && Defines(tb.types, t.head) then
      CallSpec(op, tb, stack, value, Name(t.head), offsetExpr, Values(t.params))
    else
      var pushed := if IsContainer(t) then stack + [map[]] else stack;
      var (c, s1) := CompileSpec(op, tb, pushed, t);
      ScopeFrame(stack, s1, IsContainer(t));
      if c.Err? then (Err(c.error), s1)
      else
        var s2 := if IsContainer(t) then Pop(s1) else s1;
        if op == SizeOf && NotNaN(c.value) then (Ok(c.value.s), s2)
        else
          var (fields, s3) := ResolveAll(s2, args);
          ExtendsTrans(stack, s2, s3);
          if fields.Err? then (Err(fields.error), s3)
          else (Ok(Invocation(op, CodeString(c.value), value, offsetExpr, fields.value)), s3)
  }

  /** The scopes around a compilation that may have pushed one scope: the
      caller's scopes are kept, and popping the pushed one restores the
      depth. */
  lemma ScopeFrame(stack: seq<Scope>, s1: seq<Scope>, pushed: bool)
    requires pushed ==> |s1| == |stack| + 1 && Extends(stack + [map[]], s1)
    requires !pushed ==> |s1| == |stack| && Extends(stack, s1)
    ensures Extends(stack, s1)
    ensures var s2 := if pushed then Pop(s1) else s1;
      |s2| == |stack| && Extends(stack, s2)
  {
    if pushed {
      assert Extends(stack, stack + [map[]]);
      ExtendsTrans(stack, stack + [map[]], s1);
    }
  }

  // ---------------------------------------------------------------------
  // properties of compileType and callType

  /** Every primitive entry of a well-formed registry starts with `native.`
      or `ctx.`, so the size-of compiler's numeric shortcut for bare names
      never fires and it compiles names exactly as the other two do. */
  lemma SizeOfNameIsBare(tb: Tables, n: string)
    requires tb.Valid()
    ensures CompileName(SizeOf, tb, n) == CompileName(Read, tb, n) == CompileName(Write, tb, n)
  {
    if n in tb.primitiveTypes {
      var p := tb.primitiveTypes[n];
      assert p[0] == 'n' || p[0] == 'c';
      NotNumeric(p);
    }
  }

  /** A maker wins over a user type of the same name in `compileType`. */
  lemma MakerBeforeUserType(op: Op, tb: Tables, stack: seq<Scope>, head: string, params: seq<(string, Arg)>, f: Fn)
    requires head in tb.makers && tb.makers[head] == Func(f)
    ensures CompileSpec(op, tb, stack, Form(head, params)) == RunMaker(f, stack, params)
  {
  }

  /** The code a bare user-type name compiles to: its table entry, except
      for the name `native`, which compiles to `null` even when defined. */
  function UserTypeCode(head: string): string {
    if head == "native" then "null" else "ctx." + head
  }

  /** A form whose head is a user type and not a truthy maker compiles to a
      function of no extra args returning the call of the type's table entry
      `ctx.<head>`, with the params' values resolved as fields in the
      caller's scopes; a field that fails to resolve is the error. */
  lemma UserTypeCompiles(op: Op, tb: Tables, stack: seq<Scope>, head: string, params: seq<(string, Arg)>)
    requires tb.Valid()
    requires !(head in tb.makers && TruthyValue(tb.makers[head]))
    requires Defines(tb.types, head)
    ensures var (fields, s) := ResolveAll(stack, Values(params));
      CompileSpec(op, tb, stack, Form(head, params)) ==
        if fields.Err? then (Err(fields.error), s)
        else (Ok(Text(WrapCode(op, "return " + Invocation(op, UserTypeCode(head), "value", "offset", fields.value), []))), s)
  {
    var code := UserTypeCode(head);
    SizeOfNameIsBare(tb, head);
    assert CompileName(op, tb, head) == Text(code);
    NotNumeric(code);
    assert CompileSpec(op, tb, stack, Name(head)) == (Ok(Text(code)), stack);
    assert CallSpec(op, tb, stack, "value", Name(head), "offset", Values(params)).0 ==
      var (fields, _) := ResolveAll(stack, Values(params));
      if fields.Err? then Err(fields.error) else Ok(Invocation(op, code, "value", "offset", fields.value));
  }

  /** A form whose head is neither a truthy maker nor a user type throws
      from `compileType` and leaves the scopes as they were. The message is
      the prefix followed by the head: quoted as JSON by the read compiler
      (and decoding back to the head), as it is by the other two. */
  lemma UnknownHeadThrows(op: Op, tb: Tables, stack: seq<Scope>, head: string, params: seq<(string, Arg)>)
    requires !(head in tb.makers && TruthyValue(tb.makers[head]))
    requires !Defines(tb.types, head)
    ensures CompileSpec(op, tb, stack, Form(head, params)) == (Err(UnknownType(op, head)), stack)
    ensures StartsWith(UnknownType(op, head).message, UnknownPrefix)
    ensures op == Read ==> Unquote(UnknownType(op, head).message[|UnknownPrefix|..]) == Some(head)
    ensures op != Read ==> UnknownType(op, head).message[|UnknownPrefix|..] == head
  {
  }

  /** A `null` definition compiles as the name `"null"` would (the key
      `null` converts to), and it is falsy: it defines nothing, and the next
      definition merged in replaces it. */
  lemma NullDefinition(op: Op, tb: Tables, stack: seq<Scope>, n: string, def: TypeRef)
    ensures CompileSpec(op, tb, stack, TypeRef.Null) == CompileSpec(op, tb, stack, Name("null"))
    ensures var types := tb.types.Set(n, TypeRef.Null);
      !Defines(types, n) && AddToCompile(types, n, def).entries[n] == def
  {
  }

  /** In `callType` the order is the other way round: a form whose head is a
      user type is redirected to that type whatever makers exist, keeping the
      value and offset expressions and replacing the args by the params'
      values. */
  lemma UserTypeBeforeMaker(op: Op, tb: Tables, stack: seq<Scope>, value: string, head: string,
                            params: seq<(string, Arg)>, offsetExpr: string, args: seq<Arg>, other: seq<Arg>)
    requires Defines(tb.types, head)
    ensures CallSpec(op, tb, stack, value, Form(head, params), offsetExpr, args) ==
            CallSpec(op, tb, stack, value, Name(head), offsetExpr, Values(params))
    ensures CallSpec(op, tb, stack, value, Form(head, params), offsetExpr, args) ==
            CallSpec(op, tb, stack, value, Form(head, params), offsetExpr, other)
  {
  }

  /** A container form with neither a maker nor a user type behind it throws
      from `compileType` after the push, and the pushed scope is never popped. */
  lemma ContainerLeaksOnFailure(op: Op, tb: Tables, stack: seq<Scope>, value: string,
                                params: seq<(string, Arg)>, offsetExpr: string, args: seq<Arg>)
    requires !("container" in tb.makers && TruthyValue(tb.makers["container"]))
    requires !Defines(tb.types, "container")
    ensures CallSpec(op, tb, stack, value, Form("container", params), offsetExpr, args) ==
            (Err(UnknownType(op, "container")), stack + [map[]])
  {
  }

  /** The scopes `callType` compiles in: one extra scope for a container. */
  function Pushed(stack: seq<Scope>, t: TypeRef): seq<Scope> {
    if IsContainer(t) then stack + [map[]] else stack
  }

  /** In the size-of compiler a numeric compiled code is the size itself: it
      is returned as it is, with no call around it and no arg resolved, so
      the args make no difference; a container's scope is popped first. */
  lemma SizeOfNumericReturn(tb: Tables, stack: seq<Scope>, value: string, t: TypeRef, offsetExpr: string,
                            args: seq<Arg>, other: seq<Arg>)
    requires !(t.Form? && Defines(tb.types, t.head))
    requires CompileSpec(SizeOf, tb, Pushed(stack, t), t).0.Ok?
    requires NotNaN(CompileSpec(SizeOf, tb, Pushed(stack, t), t).0.value)
    ensures var (c, s1) := CompileSpec(SizeOf, tb, Pushed(stack, t), t);
      CallSpec(SizeOf, tb, stack, value, t, offsetExpr, args) ==
        (Ok(c.value.s), if IsContainer(t) then Pop(s1) else s1)
    ensures CallSpec(SizeOf, tb, stack, value, t, offsetExpr, args) ==
            CallSpec(SizeOf, tb, stack, value, t, offsetExpr, other)
    ensures |CallSpec(SizeOf, tb, stack, value, t, offsetExpr, args).1| == |stack|
  {
  }

  /** Otherwise a compiled code is called: the args are resolved after the
      container's scope is popped, so in the caller's own scopes (the pushed
      scope is dropped whole), and the result is the call of the code with
      the value, the offset expression and the resolved fields. */
  lemma CallResolvesAfterPop(op: Op, tb: Tables, stack: seq<Scope>, value: string, t: TypeRef, offsetExpr: string,
                             args: seq<Arg>)
    requires !(t.Form? && Defines(tb.types, t.head))
    requires CompileSpec(op, tb, Pushed(stack, t), t).0.Ok?
    requires !(op == SizeOf && NotNaN(CompileSpec(op, tb, Pushed(stack, t), t).0.value))
    ensures var (c, s1) := CompileSpec(op, tb, Pushed(stack, t), t);
      var s2 := if IsContainer(t) then Pop(s1) else s1;
      |s2| == |stack| && Extends(stack, s2) &&
      (IsContainer(t) ==> s2 == s1[..|stack|]) &&
      var (fields, s3) := ResolveAll(s2, args);
      CallSpec(op, tb, stack, value, t, offsetExpr, args) ==
        if fields.Err? then (Err(fields.error), s3)
        else (Ok(Invocation(op, CodeString(c.value), value, offsetExpr, fields.value)), s3)
  {
    var (c, s1) := CompileSpec(op, tb, Pushed(stack, t), t);
    ScopeFrame(stack, s1, IsContainer(t));
  }

  /** Two registries that drive `compileType` and `callType` through the
      same scopes: the same `types`, and makers under the same names that
      are equally truthy, equally callable and resolve the same field paths.
      The read and the write compiler's registries are built from different
      libraries; it is this agreement, not equality, that lockstep needs. */
  ghost predicate Agree(tb1: Tables, tb2: Tables) {
    tb1.types == tb2.types &&
    tb1.makers.Keys == tb2.makers.Keys &&
    forall h :: h in tb1.makers ==>
      var m1 := tb1.makers[h];
      var m2 := tb2.makers[h];
      TruthyValue(m1) == TruthyValue(m2) && m1.Func? == m2.Func? &&
      (m1.Func? ==> forall ps :: m1.f.fieldsOf(ps) == m2.f.fieldsOf(ps))
  }

  /** The read and the write compiler resolve the same fields in the same
      order: from agreeing registries and the same scopes, `compileType`
      leaves the same scopes behind and succeeds for both or for neither.
      The size-of compiler is not in step with them: when the compiled code
      is numeric, its `callType` returns before resolving the args. */
  lemma {:induction false} CompileLockstep(tb1: Tables, tb2: Tables, stack: seq<Scope>, t: TypeRef)
    requires Agree(tb1, tb2)
    ensures CompileSpec(Read, tb1, stack, t).1 == CompileSpec(Write, tb2, stack, t).1
    ensures CompileSpec(Read, tb1, stack, t).0.Ok? == CompileSpec(Write, tb2, stack, t).0.Ok?
    decreases Rank(t), 0
  {
    match t
    case Name(_) =>
    case Null =>
    case Form(head, params) =>
      if !(head in tb1.makers && TruthyValue(tb1.makers[head])) && Defines(tb1.types, head) {
        CallLockstep(tb1, tb2, stack, "value", Name(head), "offset", Values(params));
      }
  }

  /** The same for `callType`, whatever value and offset expressions. */
  lemma {:induction false} CallLockstep(tb1: Tables, tb2: Tables, stack: seq<Scope>, value: string, t: TypeRef,
                                        offsetExpr: string, args: seq<Arg>)
    requires Agree(tb1, tb2)
    ensures CallSpec(Read, tb1, stack, value, t, offsetExpr, args).1 == CallSpec(Write, tb2, stack, value, t, offsetExpr, args).1
    ensures CallSpec(Read, tb1, stack, value, t, offsetExpr, args).0.Ok? == CallSpec(Write, tb2, stack, value, t, offsetExpr, args).0.Ok?
    decreases Rank(t), 1
  {
    if t.Form? && Defines(tb1.types, t.head) {
      CallLockstep(tb1, tb2, stack, value, Name(t.head), offsetExpr, Values(t.params));
    } else {
      CompileLockstep(tb1, tb2, if IsContainer(t) then stack + [map[]] else stack, t);
    }
  }

  // ---------------------------------------------------------------------
  // generate

  /** The forwarding function for a body that is a reference into the table. */
  function Forward(code: string): string {
    "function () { return " + code + "(...arguments) }"
  }

  /** What `generate` stores for a compiled body: a `ctx` reference is
      wrapped in a forwarding function (which is not numeric), a numeric body
      is wrapped as a function returning it, anything else is kept. */
  function EntryBody(op: Op, code: string): (r: string)
    ensures StartsWith(code, "ctx") ==> r == Forward(code)
    ensures !StartsWith(code, "ctx") && IsNumeric(code) ==> r == WrapCode(op, "  return " + code, [])
    ensures !StartsWith(code, "ctx") && !IsNumeric(code) ==> r == code
  {
    var forwarded := if StartsWith(code, "ctx") then Forward(code) else code;
    if StartsWith(code, "ctx") then NotNumeric(forwarded); forwarded
    else if IsNumeric(forwarded) then WrapCode(op, "  return " + forwarded, [])
    else forwarded
  }

  /** The names of `names` that are not among `keys`, in order. */
  function Unseen(keys: seq<string>, names: seq<string>): seq<string> {
    if names == [] then []
    else (if names[0] in keys then [] else [names[0]]) + Unseen(keys, names[1..])
  }

  lemma {:induction false} UnseenMembers(keys: seq<string>, names: seq<string>, x: string)
    ensures x in Unseen(keys, names) <==> x in names && x !in keys
  {
    if names != [] {
      UnseenMembers(keys, names[1..], x);
      assert names == [names[0]] + names[1..];
    }
  }

  lemma {:induction false} UnseenSkip(keys: seq<string>, n: string, names: seq<string>)
    requires n !in names
    ensures Unseen(keys + [n], names) == Unseen(keys, names)
  {
    if names != [] {
      assert names[0] != n;
      UnseenSkip(keys, n, names[1..]);
    }
  }

  /** The table entry `generate` makes for a type name without a truthy
      entry: natives refer to their implementation, anything else is
      compiled; a compilation that yields `undefined` throws on `startsWith`. */
  function EntryFor(op: Op, tb: Tables, stack: seq<Scope>, n: string): (Result<string>, seq<Scope>)
    requires n in tb.types.entries
  {
    if tb.types.entries[n] == NativeMark then (Ok("native." + n), stack)
    else
      var (c, s) := CompileSpec(op, tb, stack, tb.types.entries[n]);
      if c.Err? then (Err(c.error), s)
      else if c.value.Missing? then (Throw("Cannot read properties of undefined (reading 'startsWith')"), s)
      else (Ok(EntryBody(op, c.value.s)), s)
  }

  /** The `for (const type in this.types)` loop of `generate` from key `k` on,
      filling `functions`; the scopes thread through every compilation.
      Every type without a truthy entry gets one, as with a plain object;
      `GenerateFromAsWritten` is the loop over the array the code uses. */
  function GenerateFrom(op: Op, tb: Tables, stack: seq<Scope>, functions: Dict<string>, k: nat)
    : (Result<Dict<string>>, seq<Scope>)
    requires tb.types.Valid() && k <= |tb.types.keys|
    decreases |tb.types.keys| - k
  {
    if k == |tb.types.keys| then (Ok(functions), stack)
    else
      var n := tb.types.keys[k];
      if n in functions.entries && functions.entries[n] != "" then GenerateFrom(op, tb, stack, functions, k + 1)
      else
        var (e, s) := EntryFor(op, tb, stack, n);
        if e.Err? then (Err(e.error), s) else GenerateFrom(op, tb, s, functions.Set(n, e.value), k + 1)
  }

  /** One `name: body` line of the emitted table. */
  function Entries(functions: Dict<string>): seq<string> {
    seq(|functions.keys|, i requires 0 <= i < |functions.keys| =>
      var n := functions.keys[i];
      n + ": " + (if n in functions.entries then functions.entries[n] else "undefined"))
  }

  /** The source text `generate` returns around the table. */
  function Render(functions: Dict<string>): string {
    "() => {\n" +
    Indent("const ctx = {\n" + Indent(Join(Entries(functions), ",\n"), TwoSpaces) + "\n}\nreturn ctx", TwoSpaces) +
    "\n}"
  }

  /** `generate()`: the scopes restart from one empty scope, the table starts
      as a copy of the context, and the types are added in key order. */
  function GenerateSpec(op: Op, tb: Tables): (Result<string>, seq<Scope>)
    requires tb.types.Valid()
  {
    var (f, s) := GenerateFrom(op, tb, [map[]], tb.context, 0);
    if f.Err? then (Err(f.error), s) else (Ok(Render(f.value)), s)
  }

  /** The table keeps its keys distinct. */
  lemma {:induction false} GenerateFromValid(op: Op, tb: Tables, stack: seq<Scope>, fs: Dict<string>, k: nat)
    requires tb.types.Valid() && fs.Valid() && k <= |tb.types.keys|
    ensures var r := GenerateFrom(op, tb, stack, fs, k).0;
      r.Ok? ==> r.value.Valid()
    decreases |tb.types.keys| - k
  {
    if k < |tb.types.keys| {
      var n := tb.types.keys[k];
      if n in fs.entries && fs.entries[n] != "" {
        GenerateFromValid(op, tb, stack, fs, k + 1);
      } else {
        var (e, s) := EntryFor(op, tb, stack, n);
        if e.Ok? {
          GenerateFromValid(op, tb, s, fs.Set(n, e.value), k + 1);
        }
      }
    }
  }

  /** The table appends, in order, each type name it did not hold yet. */
  lemma {:induction false} GenerateFromKeys(op: Op, tb: Tables, stack: seq<Scope>, fs: Dict<string>, k: nat)
    requires tb.types.Valid() && fs.Valid() && k <= |tb.types.keys|
    ensures var r := GenerateFrom(op, tb, stack, fs, k).0;
      r.Ok? ==> r.value.keys == fs.keys + Unseen(fs.keys, tb.types.keys[k..])
    decreases |tb.types.keys| - k, 1
  {
    var keys := tb.types.keys;
    if k == |keys| {
      assert keys[k..] == [];
    } else {
      var n := keys[k];
      if n in fs.entries && fs.entries[n] != "" {
        GenerateFromKeysSkip(op, tb, stack, fs, k);
      } else {
        var (e, s) := EntryFor(op, tb, stack, n);
        if e.Ok? {
          GenerateFromKeysSet(op, tb, stack, fs, k, e.value, s);
        }
      }
    }
  }

  lemma {:induction false} GenerateFromKeysSkip(op: Op, tb: Tables, stack: seq<Scope>, fs: Dict<string>, k: nat)
    requires tb.types.Valid() && fs.Valid() && k < |tb.types.keys|
    requires var n := tb.types.keys[k]; n in fs.entries && fs.entries[n] != ""
    ensures var r := GenerateFrom(op, tb, stack, fs, k).0;
      r.Ok? ==> r.value.keys == fs.keys + Unseen(fs.keys, tb.types.keys[k..])
    decreases |tb.types.keys| - k, 0
  {
    var n := tb.types.keys[k];
    GenerateFromSkip(op, tb, stack, fs, k);
    GenerateFromKeys(op, tb, stack, fs, k + 1);
    UnseenStep(fs.keys, tb.types.keys, k);
    assert n in fs.keys;
    assert [] + Unseen(fs.keys, tb.types.keys[k + 1..]) == Unseen(fs.keys, tb.types.keys[k + 1..]);
  }

  /** A name without a truthy entry gets the entry `EntryFor` makes, and the
      walk goes on in the scopes that compilation left. */
  lemma GenerateFromSet(op: Op, tb: Tables, stack: seq<Scope>, fs: Dict<string>, k: nat, v: string, s: seq<Scope>)
    requires tb.types.Valid() && k < |tb.types.keys|
    requires var n := tb.types.keys[k]; !(n in fs.entries && fs.entries[n] != "") && EntryFor(op, tb, stack, n) == (Ok(v), s)
    ensures GenerateFrom(op, tb, stack, fs, k) == GenerateFrom(op, tb, s, fs.Set(tb.types.keys[k], v), k + 1)
  {
  }

  /** A name whose entry is already truthy is passed over. */
  lemma GenerateFromSkip(op: Op, tb: Tables, stack: seq<Scope>, fs: Dict<string>, k: nat)
    requires tb.types.Valid() && k < |tb.types.keys|
    requires var n := tb.types.keys[k]; n in fs.entries && fs.entries[n] != ""
    ensures GenerateFrom(op, tb, stack, fs, k) == GenerateFrom(op, tb, stack, fs, k + 1)
  {
  }

  lemma {:induction false} GenerateFromKeysSet(op: Op, tb: Tables, stack: seq<Scope>, fs: Dict<string>, k: nat,
                                               v: string, s: seq<Scope>)
    requires tb.types.Valid() && fs.Valid() && k < |tb.types.keys|
    requires var n := tb.types.keys[k]; !(n in fs.entries && fs.entries[n] != "") && EntryFor(op, tb, stack, n) == (Ok(v), s)
    ensures var r := GenerateFrom(op, tb, stack, fs, k).0;
      r.Ok? ==> r.value.keys == fs.keys + Unseen(fs.keys, tb.types.keys[k..])
    decreases |tb.types.keys| - k, 0
  {
    var keys := tb.types.keys;
    var n := keys[k];
    assert GenerateFrom(op, tb, stack, fs, k) == GenerateFrom(op, tb, s, fs.Set(n, v), k + 1);
    GenerateFromKeys(op, tb, s, fs.Set(n, v), k + 1);
    DistinctTail(keys, k);
    UnseenAppend(fs.keys, keys, k);
  }

  /** Adding the next name to the names seen does not change what is unseen
      after it. */
  lemma UnseenAppend(seen: seq<string>, keys: seq<string>, k: nat)
    requires k < |keys| && keys[k] !in keys[k + 1..]
    ensures var seen' := if keys[k] in seen then seen else seen + [keys[k]];
      seen' + Unseen(seen', keys[k + 1..]) == seen + Unseen(seen, keys[k..])
  {
    var n := keys[k];
    UnseenStep(seen, keys, k);
    if n !in seen {
      UnseenSkip(seen, n, keys[k + 1..]);
      assert seen + [n] + Unseen(seen, keys[k + 1..]) == seen + ([n] + Unseen(seen, keys[k + 1..]));
    }
  }

  /** One step of `Unseen` along a suffix of a list. */
  lemma UnseenStep(seen: seq<string>, keys: seq<string>, k: nat)
    requires k < |keys|
    ensures Unseen(seen, keys[k..]) == (if keys[k] in seen then [] else [keys[k]]) + Unseen(seen, keys[k + 1..])
  {
    assert keys[k..][0] == keys[k] && keys[k..][1..] == keys[k + 1..];
  }

  /** In a list without repetitions an element does not occur after itself. */
  lemma DistinctTail(keys: seq<string>, k: nat)
    requires forall i, j :: 0 <= i < j < |keys| ==> keys[i] != keys[j]
    requires k < |keys|
    ensures keys[k] !in keys[k + 1..]
  {
    forall j | k + 1 <= j < |keys| ensures keys[j] != keys[k] { }
  }

  /** An entry that is already truthy is never recompiled or replaced. */
  lemma {:induction false} GenerateFromKeeps(op: Op, tb: Tables, stack: seq<Scope>, fs: Dict<string>, k: nat, n: string)
    requires tb.types.Valid() && k <= |tb.types.keys|
    requires n in fs.entries && fs.entries[n] != ""
    ensures var r := GenerateFrom(op, tb, stack, fs, k).0;
      r.Ok? ==> n in r.value.entries && r.value.entries[n] == fs.entries[n]
    decreases |tb.types.keys| - k
  {
    var keys := tb.types.keys;
    if k < |keys| {
      var m := keys[k];
      if m in fs.entries && fs.entries[m] != "" {
        GenerateFromKeeps(op, tb, stack, fs, k + 1, n);
      } else {
        var (e, s) := EntryFor(op, tb, stack, m);
        if e.Ok? {
          GenerateFromKeeps(op, tb, s, fs.Set(m, e.value), k + 1, n);
        }
      }
    }
  }

  /** A native type without a truthy entry yet is emitted as a reference to
      the native implementation. */
  lemma {:induction false} GenerateFromNative(op: Op, tb: Tables, stack: seq<Scope>, fs: Dict<string>, k: nat, n: string)
    requires tb.types.Valid() && k <= |tb.types.keys|
    requires n in tb.types.keys[k..] && tb.types.entries[n] == NativeMark
    requires !(n in fs.entries && fs.entries[n] != "")
    ensures var r := GenerateFrom(op, tb, stack, fs, k).0;
      r.Ok? ==> n in r.value.entries && r.value.entries[n] == "native." + n
    decreases |tb.types.keys| - k
  {
    var keys := tb.types.keys;
    var m := keys[k];
    if m == n {
      GenerateFromSet(op, tb, stack, fs, k, "native." + n, stack);
      GenerateFromKeeps(op, tb, stack, fs.Set(n, "native." + n), k + 1, n);
    } else {
      assert n in keys[k + 1..] by {
        assert keys[k..] == [m] + keys[k + 1..];
      }
      if m in fs.entries && fs.entries[m] != "" {
        GenerateFromSkip(op, tb, stack, fs, k);
        GenerateFromNative(op, tb, stack, fs, k + 1, n);
      } else {
        var (e, s) := EntryFor(op, tb, stack, m);
        if e.Ok? {
          GenerateFromSet(op, tb, stack, fs, k, e.value, s);
          GenerateFromNative(op, tb, s, fs.Set(m, e.value), k + 1, n);
        }
      }
    }
  }

  /** Names an array inherits from `Array.prototype` and `Object.prototype`:
      on the array `functions`, `functions[name]` reads the inherited
      method, which is truthy. */
  const InheritedMembers: set<string> := {
    "at", "concat", "copyWithin", "entries", "every", "fill", "filter", "find", "findIndex", "findLast",
    "findLastIndex", "flat", "flatMap", "forEach", "includes", "indexOf", "join", "keys", "lastIndexOf",
    "map", "pop", "push", "reduce", "reduceRight", "reverse", "shift", "slice", "some", "sort", "splice",
    "toLocaleString", "toReversed", "toSorted", "toSpliced", "toString", "unshift", "values", "with",
    "constructor", "hasOwnProperty", "isPrototypeOf", "propertyIsEnumerable", "valueOf"}

  /** `!functions[type]` on the array as written: an own entry decides, and
      without one an inherited member reads as present. */
  predicate PresentAsWritten(functions: Dict<string>, n: string) {
    if n in functions.entries then functions.entries[n] != "" else n in InheritedMembers
  }

  /** The type loop of `generate` as the code is written, with `functions`
      an array: a type named after an inherited member is passed over. */
  function GenerateFromAsWritten(op: Op, tb: Tables, stack: seq<Scope>, functions: Dict<string>, k: nat)
    : (Result<Dict<string>>, seq<Scope>)
    requires tb.types.Valid() && k <= |tb.types.keys|
    decreases |tb.types.keys| - k
  {
    if k == |tb.types.keys| then (Ok(functions), stack)
    else
      var n := tb.types.keys[k];
      if PresentAsWritten(functions, n) then GenerateFromAsWritten(op, tb, stack, functions, k + 1)
      else
        var (e, s) := EntryFor(op, tb, stack, n);
        if e.Err? then (Err(e.error), s) else GenerateFromAsWritten(op, tb, s, functions.Set(n, e.value), k + 1)
  }

  /** As written, a type named after an inherited member and not defined in
      the context never gets a table entry, so the compiled protocol has no
      `ctx.<name>` for it. */
  lemma {:induction false} InheritedNameDropped(op: Op, tb: Tables, stack: seq<Scope>, fs: Dict<string>, k: nat, n: string)
    requires tb.types.Valid() && k <= |tb.types.keys|
    requires n !in fs.entries && n in InheritedMembers
    ensures var r := GenerateFromAsWritten(op, tb, stack, fs, k).0;
      r.Ok? ==> n !in r.value.entries
    decreases |tb.types.keys| - k
  {
    if k < |tb.types.keys| {
      var m := tb.types.keys[k];
      if PresentAsWritten(fs, m) {
        InheritedNameDropped(op, tb, stack, fs, k + 1, n);
      } else {
        var (e, s) := EntryFor(op, tb, stack, m);
        if e.Ok? {
          InheritedNameDropped(op, tb, s, fs.Set(m, e.value), k + 1, n);
        }
      }
    }
  }

  /** A native type named `map`: the code as written emits an empty table,
      while `GenerateFrom` gives it its entry `native.map`. */
  lemma InheritedNameExample(op: Op)
    ensures var tb := Tables(map["map" := "native.map"], map[], EmptyDict(), Dict(["map"], map["map" := NativeMark]), map[]);
      GenerateFromAsWritten(op, tb, [map[]], tb.context, 0) == (Ok(EmptyDict()), [map[]]) &&
      GenerateFrom(op, tb, [map[]], tb.context, 0) == (Ok(Dict(["map"], map["map" := "native.map"])), [map[]])
  {
    var tb := Tables(map["map" := "native.map"], map[], EmptyDict(), Dict(["map"], map["map" := NativeMark]), map[]);
    assert tb.types.keys[0] == "map";
    assert PresentAsWritten(tb.context, "map");
    assert "native." + "map" == "native.map";
    assert EntryFor(op, tb, [map[]], "map") == (Ok("native.map"), [map[]]);
    var fs := tb.context.Set("map", "native.map");
    assert fs == Dict(["map"], map["map" := "native.map"]);
    GenerateFromSet(op, tb, [map[]], tb.context, 0, "native.map", [map[]]);
    assert GenerateFrom(op, tb, [map[]], fs, 1) == (Ok(fs), [map[]]);
  }

  /** The table `generate` emits: every name of the context and of `types`
      exactly once, context names first in their order, then the remaining
      type names in theirs; context entries verbatim; natives (that the
      context does not define) as `native.<name>`. */
  lemma GenerateTable(op: Op, tb: Tables)
    requires tb.Valid()
    ensures var r := GenerateFrom(op, tb, [map[]], tb.context, 0).0;
      r.Ok? ==>
        r.value.Valid() &&
        r.value.keys == tb.context.keys + Unseen(tb.context.keys, tb.types.keys) &&
        (forall n :: n in r.value.entries <==> n in tb.context.entries || n in tb.types.entries) &&
        (forall n :: n in tb.context.entries && tb.context.entries[n] != "" ==> r.value.entries[n] == tb.context.entries[n]) &&
        (forall n ::
          (n in tb.types.entries && tb.types.entries[n] == NativeMark &&
           !(n in tb.context.entries && tb.context.entries[n] != "")) ==> r.value.entries[n] == "native." + n)
  {
    var r := GenerateFrom(op, tb, [map[]], tb.context, 0).0;
    GenerateFromValid(op, tb, [map[]], tb.context, 0);
    GenerateFromKeys(op, tb, [map[]], tb.context, 0);
    assert tb.types.keys[0..] == tb.types.keys;
    if r.Ok? {
      var f := r.value;
      forall n ensures n in f.entries <==> n in tb.context.entries || n in tb.types.entries {
        UnseenMembers(tb.context.keys, tb.types.keys, n);
      }
      forall n | n in tb.context.entries && tb.context.entries[n] != ""
        ensures f.entries[n] == tb.context.entries[n]
      {
        GenerateFromKeeps(op, tb, [map[]], tb.context, 0, n);
      }
      forall n | n in tb.types.entries && tb.types.entries[n] == NativeMark &&
          !(n in tb.context.entries && tb.context.entries[n] != "")
        ensures f.entries[n] == "native." + n
      {
        GenerateFromNative(op, tb, [map[]], tb.context, 0, n);
      }
    }
  }
}
