# deno-protodef compiler, modelled in Dafny

This project models the schema-to-code compiler of deno-protodef, a JavaScript
implementation of ProtoDef. The compiler turns a protocol description (named
types built from native codecs, context functions and parametrizable makers)
into three tables of generated JavaScript functions:

- one table that computes sizes;
- one that writes values into a buffer;
- one that reads values from a buffer.

The model covers:

- **The shared compiler object** (`Compilers.Compiler`).
  - Its registry has five parts: `primitiveTypes`, `native`, `context`, `types` and `parameterizableTypes`.
  - Natives are replaced; otherwise the first definition of a name wins. `addProtocol` merges from the root of the protocol tree down.
  - The field-scope resolver `getField` works on a stack of alias maps. It resolves `..` paths and invents collision-counted aliases.
  - `generate` emits one table entry per type.
- **The read, write and size-of compilers.** Their `compileType`, `wrapCode` and `callType` are modelled by one `Compiler` class whose `op` says which of the three it is. The size-of compiler's own `addNativeType` is included.
- **The compiled protocol** (`Compiled.CompiledProtodef`): lookups in three tables, `setVariable`, `createPacketBuffer` and `parsePacketBuffer`.
- **The front object** (`ProtoDef.ProtoDefCompiler`), which keeps the three compilers in step.

How the model is built:

- **Specification and class are separate.** Module `Compilation` holds the definitions: registration, `compileType` and `callType` as mutually recursive functions over the registry and the scope stack, and `generate`. The class methods are proved against these definitions. The properties are proved as lemmas about the definitions.
- **JavaScript behaviour is written out.** The compiler relies on several JavaScript behaviours, and each one is modelled explicitly:
  - truthiness;
  - `split` and `join`;
  - `isNaN` on strings: whitespace trimming, decimal and exponent forms, `Infinity`, and `0x`/`0o`/`0b` literals;
  - `JSON.stringify` on strings;
  - the insertion order of object keys;
  - V8's TypeError messages for `undefined`/`null` accesses.

The scope pushed for a container is popped only on success:

- In `callType` the pop follows `compileType` and is not in a `finally` (`src/Compiler/SizeOfCompiler.class.js:71-73`, and the same lines in the other two compilers).
- So a container whose compilation throws leaves its scope pushed. `CallSpec` and `ContainerLeaksOnFailure` state exactly this.

`generate` keeps its table in an array, so a type named after a member the array inherits (`map`, `keys`, …) is passed over and gets no entry. The model's `GenerateFrom` gives every type its entry; the code as written is `GenerateFromAsWritten`, and "## Findings" records the difference.

## Model

| member | source | states |
|---|---|---|
| Source.IndentLines | src/Compiler/Compiler.class.js:70-72 | `indent` keeps the number of lines, and line k of the result is the indentation followed by line k of the input |
| Source.BlockLines | src/Compiler/ReadCompiler.class.js:41-44 | a wrapped body reads as the header line, each body line indented by two spaces, and a closing brace on its own line |
| Json.QuoteRoundTrip | src/Compiler/ReadCompiler.class.js:33 | the JSON-quoted type name in the read compiler's error decodes back to exactly the name |
| Json.ShortEscapeOf | src/Compiler/ReadCompiler.class.js:33 | every two-character escape `JSON.stringify` writes decodes back to the character it stands for |
| Js.NotNumeric | src/Compiler/Compiler.class.js:115 | a string that starts with a character other than whitespace, a digit, a sign, a dot or `I` is NaN to `isNaN`, so `native.`, `ctx.` and forwarding bodies are never numeric |
| Scopes.Resolve | src/Compiler/Compiler.class.js:78-98 | when the loop binds a fresh alias, it does so in an existing scope that did not bind the field, and the alias is the field followed by its collision count |
| Scopes.ResolveSkipsUps | src/Compiler/Compiler.class.js:78-84 | leading `..` segments only move the scope index outward; a path made only of `..` ends in `Unknown field ` |
| Scopes.GetFieldCases | src/Compiler/Compiler.class.js:74-100 | `getField` case by case: `Unknown field ` for an all-`..` path; an error for a missing scope; the existing alias plus the remaining segments as `.`-members; an error for an unbound field with more segments; otherwise a fresh alias, bound in the addressed scope only |
| Scopes.CountBindingCounts | src/Compiler/Compiler.class.js:90-95 | the collision count is the number of scopes below the addressed one that bind the field |
| Scopes.CountBindingBelow | src/Compiler/Compiler.class.js:93-95 | only the scopes below the addressed one decide the count |
| Scopes.ResolveAfterFresh | src/Compiler/Compiler.class.js:86-97 | after a fresh binding, the same path finds it as an existing alias |
| Scopes.GetFieldIdempotent | src/Compiler/Compiler.class.js:74-100 | calling `getField` twice with the same name gives the same result, and the second call changes no scope |
| Scopes.GetFieldOnlyAdds | src/Compiler/Compiler.class.js:86-97 | `getField` keeps the depth, changes no scope but the addressed one, never rebinds a bound field, and adds at most one key |
| Scopes.GetFieldExtends | src/Compiler/Compiler.class.js:74-100 | `getField` keeps the depth and every alias already handed out |
| Registry.CompileBareName | src/Compiler/WriteCompiler.class.js:34-38 | a bare name compiles to `null` for `native`, to `ctx.<name>` for any truthy `types` entry (natives included), else to its `primitiveTypes` entry; it is `undefined` exactly when none of these applies, with no error |
| Registry.AddAllToCompileEffect | src/Compiler/Compiler.class.js:53-58 | `addTypesToCompile`: a given name takes the new definition unless it already held a non-native one; every other name is untouched; new names are enumerated after the old ones |
| Registry.AddAllToCompileKeys | src/Compiler/Compiler.class.js:53-58 | the key order after merging: the old keys, then the new names in the order given |
| Registry.AddAllToCompileValid | src/Compiler/Compiler.class.js:53-58 | merging keeps the keys distinct and in step with the entries |
| Registry.DefinedStays | src/Compiler/Compiler.class.js:56 | a name holding a non-native definition keeps it through any number of later merges |
| Registry.UndefinedStaysOneLevel | src/Compiler/Compiler.class.js:56 | a merge that gives a name no settling definition leaves it without one |
| Registry.ShallowerWins | src/Compiler/Compiler.class.js:60-68 | along an `addProtocol` walk, the shallowest settling definition of a name is the one that is kept |
| Registry.AddLevelsValid | src/Compiler/Compiler.class.js:60-68 | the walk keeps `types` well formed |
| ReadCompiler.WrapCode | src/Compiler/ReadCompiler.class.js:41-44 | `wrapCode` is the block with parameters `buffer, offset` followed by the args, in both branches |
| ReadCompiler.Invocation | src/Compiler/ReadCompiler.class.js:55-56 | the call is `(code)(buffer, offsetExpr, f1, …)`, with no trailing comma when there are no fields |
| ReadCompiler.UnknownTypeMessage | src/Compiler/ReadCompiler.class.js:33 | the error is the prefix followed by a JSON string literal that decodes to the head |
| WriteCompiler.WrapCode | src/Compiler/WriteCompiler.class.js:41-44 | the parameters are always `value, buffer, offset`, followed by the args |
| WriteCompiler.Invocation | src/Compiler/WriteCompiler.class.js:55-56 | the call is `(code)(value, buffer, offsetExpr, f1, …)` |
| SizeOfCompiler.CompileName | src/Compiler/SizeOfCompiler.class.js:52-57 | a numeric `primitiveTypes` entry is returned as it is; otherwise the bare name compiles as in the other two compilers; `undefined` without an error for unknown names |
| SizeOfCompiler.WrapCode | src/Compiler/SizeOfCompiler.class.js:60-63 | `wrapCode` is the block with parameters `value` followed by the args |
| SizeOfCompiler.Invocation | src/Compiler/SizeOfCompiler.class.js:75-76 | the call is `(code)(value, f1, …)` |
| Compilation.AddNative | src/Compiler/SizeOfCompiler.class.js:35-43 | `addNativeType(t, fn)` sets `primitiveTypes[t]` to `native.t`, `native[t]` to `fn` and overwrites `types[t]` with the native marker; every other entry stays, and `context` and the makers are left alone; in the size-of compiler a numeric `fn` makes `native[t]` the constant function returning that number instead |
| Compilation.AddContext | src/Compiler/Compiler.class.js:30-33 | `addContextType(t, fn)` sets `primitiveTypes[t]` to `ctx.t` and `context[t]` to the source of `fn`, and leaves `types` untouched |
| Compilation.RegisterAllIgnoresUnknown | src/Compiler/Compiler.class.js:45-51 | entries of a kind other than `native`, `context` or `parametrizable` are ignored: dropping them changes nothing |
| Compilation.RegisterAllValid | src/Compiler/Compiler.class.js:45-51 | registration keeps the registry well formed: every `primitiveTypes` entry is `native.t` or `ctx.t` |
| Compilation.Initial | src/Compiler/ReadCompiler.class.js:11-25 | a freshly built compiler (libraries first, then the default natives) has a well-formed registry |
| Compilation.NativeIsReplaced | src/Compiler/Compiler.class.js:53-58 | a name just registered as native takes the next definition merged in |
| Compilation.ResolveAll | src/Compiler/ReadCompiler.class.js:55 | resolving the args keeps the depth and every alias handed out, and yields one alias per arg; a `null` or non-string first arg throws with the scopes unchanged, and a success means every arg was a string |
| Compilation.RunMaker | src/Compiler/ReadCompiler.class.js:29 | a maker's field lookups keep the depth and every alias handed out |
| Compilation.CompileSpec | src/Compiler/ReadCompiler.class.js:27-39 | with makers as modelled (they only resolve fields), `compileType` never changes the depth of the scope stack and never changes an alias handed out |
| Compilation.CallSpec | src/Compiler/SizeOfCompiler.class.js:65-77 | `callType` keeps every alias; on success the depth is unchanged; the depth grows by one only when a container form that is not a user type fails |
| Compilation.SizeOfNameIsBare | src/Compiler/SizeOfCompiler.class.js:54 | in a well-formed registry the size-of shortcut for numeric primitive entries never fires, so bare names compile as in the other two compilers |
| Compilation.MakerBeforeUserType | src/Compiler/SizeOfCompiler.class.js:46-51 | in `compileType` a maker wins over a user type of the same name |
| Compilation.UserTypeCompiles | src/Compiler/WriteCompiler.class.js:30-32 | a form naming a user type and no truthy maker compiles to a no-arg wrapper returning the call of `ctx.<head>` (`null` for the name `native`) with the params' values resolved as fields; a failing field is the error |
| Compilation.UnknownHeadThrows | src/Compiler/ReadCompiler.class.js:28-33 | in all three compilers a form with neither a truthy maker nor a user type throws `Unknown parametrizable type: ` followed by the head and leaves the scopes alone; the read compiler quotes the head as JSON, which decodes back to the head, and the write and size-of compilers append it as it is |
| Compilation.NullDefinition | src/Compiler/ReadCompiler.class.js:34-37 | a `null` definition compiles as the key `"null"` it converts to; it defines nothing, and the next definition merged in replaces it |
| Compilation.UserTypeBeforeMaker | src/Compiler/SizeOfCompiler.class.js:66-70 | in `callType` a form naming a user type is redirected to the bare name with the params' values as args, whatever makers exist and whatever args were passed |
| Compilation.ContainerLeaksOnFailure | src/Compiler/SizeOfCompiler.class.js:71-73 | a container form with no maker and no user type throws after the push, and the pushed scope stays |
| Compilation.SizeOfNumericReturn | src/Compiler/SizeOfCompiler.class.js:71-74 | when the size-of compiler's compiled code is numeric, `callType` returns it as it is (after popping a container's scope), with no call around it and no arg resolved, so the args make no difference |
| Compilation.CallResolvesAfterPop | src/Compiler/SizeOfCompiler.class.js:71-76 | otherwise the args are resolved after the container's scope is popped, in the caller's own scopes, and the result is `(code)(value, f1, …)` (for the read and write compilers `(code)(buffer, offsetExpr, …)` and `(code)(value, buffer, offsetExpr, …)`); a failing field is the error |
| Compilation.CompileLockstep | src/Compiler/WriteCompiler.class.js:27-39 | from registries with the same `types` and makers that resolve the same fields, the read and write compilers' `compileType` leave the same scopes and succeed together |
| Compilation.CallLockstep | src/Compiler/ReadCompiler.class.js:46-57 | the same agreement makes the read and write compilers' `callType` leave the same scopes and succeed together, whatever value and offset expressions |
| Compilation.EntryBody | src/Compiler/Compiler.class.js:112-115 | a body starting with `ctx` becomes a forwarding function; a numeric body is wrapped with `wrapCode`; any other body is kept |
| Compilation.GenerateFromValid | src/Compiler/Compiler.class.js:108-120 | the generated table keeps its keys distinct |
| Compilation.GenerateFromKeys | src/Compiler/Compiler.class.js:108-120 | the loop appends, in order, each type name the table does not hold yet |
| Compilation.GenerateFromKeeps | src/Compiler/Compiler.class.js:109 | an entry that is already truthy is never recompiled or replaced |
| Compilation.GenerateFromNative | src/Compiler/Compiler.class.js:116-118 | a native type with no truthy entry yet is emitted as `native.<name>` |
| Compilation.GenerateTable | src/Compiler/Compiler.class.js:102-124 | `generate` emits every name of context ∪ types exactly once, context names first; context entries are verbatim and natives are `native.<name>` |
| Compilation.InheritedNameDropped | src/Compiler/Compiler.class.js:104-109 | as written, a type named after an inherited array member (`map`, `keys`, `values`, …) with no context entry never gets a table entry |
| Compilation.InheritedNameExample | src/Compiler/Compiler.class.js:104-123 | a native type named `map`: as written the table is empty, while `GenerateFrom` emits `map: native.map` |
| Compilers.Compiler.constructor | src/Compiler/ReadCompiler.class.js:11-25 | the new compiler holds the registry `Initial` describes and an empty scope stack |
| Compilers.Compiler.AddLibraries | src/Compiler/ReadCompiler.class.js:14-16 | the libraries of maker and helper types are registered one after the other |
| Compilers.Compiler.AddDefaults | src/Compiler/ReadCompiler.class.js:19-24 | the default numeric and utility natives are added one after the other |
| Compilers.Compiler.AddNativeType | src/Compiler/Compiler.class.js:17-21 | updates the registry as `AddNative` says (the size-of variant included) and nothing else |
| Compilers.Compiler.AddContextType | src/Compiler/Compiler.class.js:30-33 | updates the registry as `AddContext` says and nothing else |
| Compilers.Compiler.AddParametrizableType | src/Compiler/Compiler.class.js:41-43 | stores the maker under the name and changes nothing else |
| Compilers.Compiler.AddTypes | src/Compiler/Compiler.class.js:45-51 | the loop registers the entries in order, as `RegisterAll` |
| Compilers.Compiler.AddTypesToCompile | src/Compiler/Compiler.class.js:53-58 | the loop merges as `AddAllToCompile`, and only `types` changes |
| Compilers.Compiler.AddProtocol | src/Compiler/Compiler.class.js:60-68 | `types` becomes the merge of the `types` objects met from the root along the path, and nothing else changes |
| Compilers.Compiler.RecursiveAddTypes | src/Compiler/Compiler.class.js:62-66 | one level of the walk: this level's types, then the child named by the next segment (`undefined` once the path is used up) |
| Compilers.Compiler.GetField | src/Compiler/Compiler.class.js:74-100 | the loop with its inner counting loop returns and binds exactly what `GetFieldSpec` says, and leaves the registry alone |
| Compilers.Compiler.AtLevel | src/Compiler/Compiler.class.js:85-97 | at the addressed scope: a bound alias is returned with the remaining segments as `.`-members, a longer path throws, and a last segment gets a fresh alias bound in that scope, all as `Resolve` says |
| Compilers.Compiler.CountCollisions | src/Compiler/Compiler.class.js:90-95 | the counting loop yields one for a reserved name plus one per lower scope that binds the field |
| Compilers.Compiler.ResolveArgs | src/Compiler/ReadCompiler.class.js:55 | the `map` over the args resolves left to right as `ResolveAll` |
| Compilers.Compiler.CallMaker | src/Compiler/ReadCompiler.class.js:29 | a maker call behaves as `RunMaker` |
| Compilers.Compiler.CompileType | src/Compiler/SizeOfCompiler.class.js:45-58 | the result and the scopes are those of `CompileSpec`, and the registry is unchanged |
| Compilers.Compiler.CallType | src/Compiler/WriteCompiler.class.js:46-57 | the push, the compile, the pop and the field resolution give the result and scopes of `CallSpec` |
| Compilers.Compiler.CopyContext | src/Compiler/Compiler.class.js:104-107 | the table starts as an exact copy of the context: the same keys in the same order, with the same entries |
| Compilers.Compiler.Entry | src/Compiler/Compiler.class.js:110-118 | the entry for one type is the native reference or the compiled body, forwarded or wrapped, with the result and scopes `EntryFor` gives |
| Compilers.Compiler.Generate | src/Compiler/Compiler.class.js:102-124 | the scopes restart from one empty scope, the table is filled from a copy of the context, and the result is `GenerateSpec` |
| Compiled.AllocUnsafe | src/Compiler/CompiledProtodef.class.js:44 | allocation succeeds exactly for a size that is a number not below 0, and gives that many bytes |
| Compiled.Overlay | src/Compiler/CompiledProtodef.class.js:45 | a write changes bytes inside the buffer only; the length never changes |
| Compiled.SliceEnd | src/Compiler/CompiledProtodef.class.js:62 | `slice(0, size)` never passes the buffer's end, and ends at `size` when `size` is within the buffer |
| Compiled.CompiledProtodef.constructor | src/Compiler/CompiledProtodef.class.js:4-8 | the three tables are stored as given |
| Compiled.CompiledProtodef.Read | src/Compiler/CompiledProtodef.class.js:10-14 | an absent or falsy entry throws `missing data type: <type>`; a success is the entry's own result on the same buffer and cursor |
| Compiled.CompiledProtodef.Write | src/Compiler/CompiledProtodef.class.js:16-20 | the same for writes, with the value passed on as well |
| Compiled.CompiledProtodef.SizeOf | src/Compiler/CompiledProtodef.class.js:28-36 | an absent or falsy entry throws `missing data type: <type>`; a truthy entry that is not a function is returned as the size; only a function entry can fail otherwise |
| Compiled.CompiledProtodef.SetVariable | src/Compiler/CompiledProtodef.class.js:22-26 | the same value under the key in all three tables; nothing else changes |
| Compiled.CompiledProtodef.CreatePacketBuffer | src/Compiler/CompiledProtodef.class.js:38-51 | on success the buffer has exactly the size `sizeOf` computed and is the written result of a write at offset 0; size and write errors are rethrown as `SizeOf error for <field> : …` and `Write error for <field> : …` |
| Compiled.CompiledProtodef.ParsePacketBuffer | src/Compiler/CompiledProtodef.class.js:53-65 | on success the data and size are the read's; `buffer` is a prefix of the input taken from its start, not from the offset, of length `size` when that fits; `fullBuffer` is the input; read errors are rethrown as `Read error for <field> : …` |
| ProtoDef.ProtoDefCompiler.constructor | src/Compiler/ProtoDefCompiler.class.js:2-6 | three fresh compilers, one per operation, each with its own initial registry |
| ProtoDef.ProtoDefCompiler.AddTypes | src/Compiler/ProtoDefCompiler.class.js:8-12 | each member goes to its own compiler only; an absent member throws and stops the registrations after it |
| ProtoDef.ProtoDefCompiler.AddTypesToCompile | src/Compiler/ProtoDefCompiler.class.js:14-18 | the identical merge in all three registries, and nothing else changes |
| ProtoDef.ProtoDefCompiler.AddProtocol | src/Compiler/ProtoDefCompiler.class.js:20-24 | all three compilers walk the full path |
| ProtoDef.ProtoDefCompiler.AddVariable | src/Compiler/ProtoDefCompiler.class.js:26-30 | each compiler gets the context type, so each has `primitiveTypes[key] == "ctx." + key` |
| ProtoDef.ProtoDefCompiler.CompileProtoDefSync | src/Compiler/ProtoDefCompiler.class.js:32-48 | generation runs size-of, then write, then read; then the three sources are loaded in the same order; the first failure stops everything after it; the tables are passed on in that order |

## Left out

- `compile` (`eval` of the generated source plus a `require`) cannot be modelled. `CompileProtoDefSync` takes a `load` parameter in its place, and the generated functions' behaviour is a `Runtime` parameter of the compiled protocol.
- RunMaker: makers and native codecs come from `./datatypes/*`, which is not part of this model. A maker is modelled as the field paths it resolves through `getField`, followed by code built from the params and the aliases it received. A maker that calls back into `compileType`, `callType` or `wrapCode` on the compiler handle is not modelled.
- The `printCode` option of `compileProtoDefSync` only logs to the console; it is left out.
- `Validator`, `FullPacketParser` and `index.js` are not part of this model: they are JSON Schema validation through an external library, stream plumbing, and re-exports.
- `tryCatch` is not part of this model. It is taken to call its handler with the thrown error, and the handler rethrows. Errors thrown as non-`Error` values are left out.
- Object keys are a simplification:
  - keys inherited from `Object.prototype` (such as `constructor`), used as type or field names, are not modelled;
  - integer-like keys of `types`, `context` and the `functions` table of `generate` are enumerated first, in ascending order, by `for…in` and `Object.keys`; the model enumerates every key in insertion order;
  - `generate` fills an array, not a plain object. Names the array inherits are covered under "## Findings". A type named `length` is not modelled: the empty array's `length` is `0`, so the name reads as absent, and storing its body there throws `RangeError: Invalid array length`.
- A protocol path segment `types`, and protocol nodes that are not objects, are left out: children are always namespaces.
- The params of an array form are modelled as a list of named values, so `Object.values(type[1])` is their values in order. A form without params (`Object.values(undefined)` throws `Cannot convert undefined or null to object`), a string param (whose characters become the args) and a number param (which gives no args) are not modelled.
- A `types` definition is a name, an array form or `null`. A number, boolean or plain object given as a definition is not modelled.
- Numbers are integers: fractional sizes, `NaN` sizes and a read size that is not a number are left out.
- `isNaN` is modelled on strings only. A registered `fn` is either a function or an integer.
- AllocUnsafe: the error texts are shortened, and the upper size limit of `Buffer.allocUnsafe` is not modelled. The initial bytes are a parameter.
- Overlay: a codec that writes past the end of the buffer throws in the runtime; the model represents this as an error returned by `Runtime.write`, and any bytes the runtime returns past the buffer's length are dropped.
- Entries given to `addTypes` that are not `[kind, fn]` pairs, which make JavaScript destructuring throw, are left out.

## Findings

| source | as written | input that shows it | evidently intended | confidence | as-written member | corrected member |
|---|---|---|---|---|---|---|
| src/Compiler/Compiler.class.js:104-109 | `functions` is an array, so `!functions[type]` is false for a type named after an inherited member, and the type gets no entry | a protocol type named `map` (or `keys`, `values`, `find`, …) not defined in the context: no `map` entry, so the compiled protocol has no `ctx.map` | every type name gets an entry, as with a plain object | high; not executed | Compilation.InheritedNameDropped | Compilation.GenerateTable |
