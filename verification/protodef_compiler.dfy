/**
 * The front object: one read, one write and one size-of compiler, kept in
 * step by giving each the same registrations, and the step that turns
 * their generated sources into a compiled protocol.
 */
module ProtoDef {
  import opened Js
  import opened Registry
  import opened Compilation
  import opened Compilers
  import opened Compiled

  /** The object `{ Read, Write, SizeOf }` given to `addTypes`; a member that
      is absent reads `undefined`. */
  datatype PerOp<T> = PerOp(read: Option<T>, write: Option<T>, sizeOf: Option<T>)

  /** `Object.entries(undefined)` */
  const NotAnObject: string := "Cannot convert undefined or null to object"

  class ProtoDefCompiler {
    const readCompiler: Compiler
    const writeCompiler: Compiler
    const sizeOfCompiler: Compiler

    /** One compiler per operation; since their operations differ they are
        three distinct objects. */
    ghost predicate Valid()
      reads readCompiler, writeCompiler, sizeOfCompiler
    {
      readCompiler.op == Read && writeCompiler.op == Write && sizeOfCompiler.op == SizeOf &&
      readCompiler.Valid() && writeCompiler.Valid() && sizeOfCompiler.Valid()
    }

    /** Each compiler starts from the libraries and default natives of its
        operation. */
    constructor (libraries: Op -> seq<seq<(string, Registration)>>, defaults: Op -> seq<(string, Value)>)
      ensures Valid()
      ensures fresh(readCompiler) && fresh(writeCompiler) && fresh(sizeOfCompiler)
      ensures readCompiler.Snapshot() == Initial(Read, libraries(Read), defaults(Read))
      ensures writeCompiler.Snapshot() == Initial(Write, libraries(Write), defaults(Write))
      ensures sizeOfCompiler.Snapshot() == Initial(SizeOf, libraries(SizeOf), defaults(SizeOf))
      ensures readCompiler.scopeStack == writeCompiler.scopeStack == sizeOfCompiler.scopeStack == []
    {
      readCompiler := new Compiler(Read, libraries(Read), defaults(Read));
      writeCompiler := new Compiler(Write, libraries(Write), defaults(Write));
      sizeOfCompiler := new Compiler(SizeOf, libraries(SizeOf), defaults(SizeOf));
    }

    /** `addTypes(types)`: each member goes to its own compiler only, in the
        order read, write, size-of; an absent member throws and stops the
        registrations that follow it. */
    method AddTypes(types: PerOp<seq<(string, Registration)>>) returns (r: Result<()>)
      requires Valid()
      modifies readCompiler, writeCompiler, sizeOfCompiler
      ensures Valid()
      ensures r.Ok? <==> types.read.Some? && types.write.Some? && types.sizeOf.Some?
      ensures r.Err? ==> r == Throw(NotAnObject)
      ensures readCompiler.Snapshot() ==
        if types.read.Some? then RegisterAll(Read, old(readCompiler.Snapshot()), types.read.value)
        else old(readCompiler.Snapshot())
      ensures writeCompiler.Snapshot() ==
        if types.read.Some? && types.write.Some? then RegisterAll(Write, old(writeCompiler.Snapshot()), types.write.value)
        else old(writeCompiler.Snapshot())
      ensures sizeOfCompiler.Snapshot() ==
        if r.Ok? then RegisterAll(SizeOf, old(sizeOfCompiler.Snapshot()), types.sizeOf.value)
        else old(sizeOfCompiler.Snapshot())
      ensures readCompiler.scopeStack == old(readCompiler.scopeStack)
      ensures writeCompiler.scopeStack == old(writeCompiler.scopeStack)
      ensures sizeOfCompiler.scopeStack == old(sizeOfCompiler.scopeStack)
    {
      if types.read.None? {
        return Throw(NotAnObject);
      }
      readCompiler.AddTypes(types.read.value);
      if types.write.None? {
        return Throw(NotAnObject);
      }
      writeCompiler.AddTypes(types.write.value);
      if types.sizeOf.None? {
        return Throw(NotAnObject);
      }
      sizeOfCompiler.AddTypes(types.sizeOf.value);
      r := Ok(());
    }

    /** `addTypesToCompile(types)`: the same merge in all three registries. */
    method AddTypesToCompile(defs: seq<(string, TypeRef)>)
      requires Valid()
      modifies readCompiler, writeCompiler, sizeOfCompiler
      ensures Valid()
      ensures readCompiler.types == AddAllToCompile(old(readCompiler.types), defs)
      ensures writeCompiler.types == AddAllToCompile(old(writeCompiler.types), defs)
      ensures sizeOfCompiler.types == AddAllToCompile(old(sizeOfCompiler.types), defs)
      ensures readCompiler.Snapshot() == old(readCompiler.Snapshot()).(types := readCompiler.types)
      ensures writeCompiler.Snapshot() == old(writeCompiler.Snapshot()).(types := writeCompiler.types)
      ensures sizeOfCompiler.Snapshot() == old(sizeOfCompiler.Snapshot()).(types := sizeOfCompiler.types)
      ensures readCompiler.scopeStack == old(readCompiler.scopeStack)
      ensures writeCompiler.scopeStack == old(writeCompiler.scopeStack)
      ensures sizeOfCompiler.scopeStack == old(sizeOfCompiler.scopeStack)
    {
      readCompiler.AddTypesToCompile(defs);
      writeCompiler.AddTypesToCompile(defs);
      sizeOfCompiler.AddTypesToCompile(defs);
    }

    /** `addProtocol(protocolData, path)`: every compiler walks the whole
        path, since none of them consumes the caller's copy. */
    method AddProtocol(p: Protocol, path: seq<string>)
      requires Valid()
      modifies readCompiler, writeCompiler, sizeOfCompiler
      ensures Valid()
      ensures readCompiler.types == AddLevels(old(readCompiler.types), TypesAlong(p, path))
      ensures writeCompiler.types == AddLevels(old(writeCompiler.types), TypesAlong(p, path))
      ensures sizeOfCompiler.types == AddLevels(old(sizeOfCompiler.types), TypesAlong(p, path))
      ensures readCompiler.Snapshot() == old(readCompiler.Snapshot()).(types := readCompiler.types)
      ensures writeCompiler.Snapshot() == old(writeCompiler.Snapshot()).(types := writeCompiler.types)
      ensures sizeOfCompiler.Snapshot() == old(sizeOfCompiler.Snapshot()).(types := sizeOfCompiler.types)
      ensures readCompiler.scopeStack == old(readCompiler.scopeStack)
      ensures writeCompiler.scopeStack == old(writeCompiler.scopeStack)
      ensures sizeOfCompiler.scopeStack == old(sizeOfCompiler.scopeStack)
    {
      readCompiler.AddProtocol(p, path);
      writeCompiler.AddProtocol(p, path);
      sizeOfCompiler.AddProtocol(p, path);
    }

    /** `addVariable(key, val)`: a context type of the same name in all three. */
    method AddVariable(key: string, val: Value)
      requires Valid()
      modifies readCompiler, writeCompiler, sizeOfCompiler
      ensures Valid()
      ensures readCompiler.Snapshot() == AddContext(old(readCompiler.Snapshot()), key, val)
      ensures writeCompiler.Snapshot() == AddContext(old(writeCompiler.Snapshot()), key, val)
      ensures sizeOfCompiler.Snapshot() == AddContext(old(sizeOfCompiler.Snapshot()), key, val)
      ensures readCompiler.primitiveTypes[key] == writeCompiler.primitiveTypes[key] ==
              sizeOfCompiler.primitiveTypes[key] == "ctx." + key
      ensures readCompiler.scopeStack == old(readCompiler.scopeStack)
      ensures writeCompiler.scopeStack == old(writeCompiler.scopeStack)
      ensures sizeOfCompiler.scopeStack == old(sizeOfCompiler.scopeStack)
    {
      readCompiler.AddContextType(key, val);
      writeCompiler.AddContextType(key, val);
      sizeOfCompiler.AddContextType(key, val);
    }

    /** `compileProtoDefSync()`: generates the size-of, then the write, then
        the read source, then loads them in the same order; the first failure
        ends the whole step. `load` stands for evaluating a generated source
        into its table. */
    method CompileProtoDefSync(load: (Op, string) -> Result<Ctx>) returns (r: Result<CompiledProtodef>)
      requires Valid()
      modifies readCompiler, writeCompiler, sizeOfCompiler
      ensures Valid()
      ensures readCompiler.Snapshot() == old(readCompiler.Snapshot())
      ensures writeCompiler.Snapshot() == old(writeCompiler.Snapshot())
      ensures sizeOfCompiler.Snapshot() == old(sizeOfCompiler.Snapshot())
      ensures var s := GenerateSpec(SizeOf, old(sizeOfCompiler.Snapshot()));
        var w := GenerateSpec(Write, old(writeCompiler.Snapshot()));
        var d := GenerateSpec(Read, old(readCompiler.Snapshot()));
        sizeOfCompiler.scopeStack == s.1 &&
        writeCompiler.scopeStack == (if s.0.Ok? then w.1 else old(writeCompiler.scopeStack)) &&
        readCompiler.scopeStack == (if s.0.Ok? && w.0.Ok? then d.1 else old(readCompiler.scopeStack)) &&
        (s.0.Err? ==> r == Err(s.0.error)) &&
        (s.0.Ok? && w.0.Err? ==> r == Err(w.0.error)) &&
        (s.0.Ok? && w.0.Ok? && d.0.Err? ==> r == Err(d.0.error)) &&
        (r.Ok? <==> (s.0.Ok? && w.0.Ok? && d.0.Ok? &&
                     load(SizeOf, s.0.value).Ok? && load(Write, w.0.value).Ok? && load(Read, d.0.value).Ok?)) &&
        (r.Ok? ==> (fresh(r.value) &&
                    r.value.sizeOfCtx == load(SizeOf, s.0.value).value &&
                    r.value.writeCtx == load(Write, w.0.value).value &&
                    r.value.readCtx == load(Read, d.0.value).value))
    {
      var sizeOfCode :- sizeOfCompiler.Generate();
      var writeCode :- writeCompiler.Generate();
      var readCode :- readCompiler.Generate();
      var sizeOfCtx :- load(SizeOf, sizeOfCode);
      var writeCtx :- load(Write, writeCode);
      var readCtx :- load(Read, readCode);
      var compiled := new CompiledProtodef(sizeOfCtx, writeCtx, readCtx);
      r := Ok(compiled);
    }
  }
}
