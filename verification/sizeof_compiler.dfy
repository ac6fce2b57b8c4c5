/**
 * The size-of compiler's own pieces: numeric sizes registered as natives
 * become constant functions, a bare name whose primitive entry is numeric
 * compiles to that number, and generated functions take `(value, …)`.
 */
module SizeOfCompiler {
  import opened Js
  import opened Source
  import opened Registry

  /** What `addNativeType` stores in `native`: a number becomes the closure
      returning it, anything else is stored as given. */
  function NativeEntry(fn: Value): (r: NativeImpl)
    ensures fn.Num? <==> r.Constant?
    ensures fn.Num? ==> r.n == fn.n
    ensures fn.Func? ==> r == Given(fn)
  {
    if fn.Num? then Constant(fn.n) else Given(fn)
  }

  /** The bare-name branch of `compileType`: `native` compiles to `null`; a
      numeric `primitiveTypes` entry is returned as it is; a name in `types`
      compiles to a reference into the live table; anything else yields its
      `primitiveTypes` entry, `undefined` when there is none. */
  function CompileName(types: Dict<TypeRef>, primitiveTypes: map<string, string>, n: string): (c: Code)
    ensures c.Missing? <==> n != "native" && !(n in types.entries && TruthyRef(types.entries[n])) && n !in primitiveTypes
    ensures n != "native" && n in primitiveTypes && IsNumeric(primitiveTypes[n]) ==> c == Text(primitiveTypes[n])
    ensures n != "native" && !(n in primitiveTypes && IsNumeric(primitiveTypes[n])) ==>
      c == CompileBareName(types, primitiveTypes, n)
  {
    if n == "native" then Text("null")
    else if n in primitiveTypes && IsNumeric(primitiveTypes[n]) then Text(primitiveTypes[n])
    else if n in types.entries && TruthyRef(types.entries[n]) then Text("ctx." + n)
    else if n in primitiveTypes then Text(primitiveTypes[n])
    else Missing
  }

  /** `wrapCode(code, args)`: a size function taking the value and the extra args. */
  function WrapCode(code: string, args: seq<string>): (r: string)
    ensures r == Block(["value"] + args, code)
  {
    Leading1("value", args);
    if |args| > 0 then
      "(value, " + Join(args, ", ") + ") => {\n" + Indent(code, TwoSpaces) + "\n}"
    else
      "(value) => {\n" + Indent(code, TwoSpaces) + "\n}"
  }

  /** The call `callType` emits: the value expression, then the resolved fields. */
  function Invocation(code: string, value: string, fields: seq<string>): (r: string)
    ensures r == Call(code, [value] + fields)
  {
    Leading1(value, fields);
    if |fields| > 0 then
      "(" + code + ")(" + value + ", " + Join(fields, ", ") + ")"
    else
      "(" + code + ")(" + value + ")"
  }

  /** The error for an array form whose head is neither a maker nor a user
      type: the head is appended as it is. */
  function UnknownTypeMessage(head: string): (m: string)
    ensures |m| >= |UnknownPrefix| && m[..|UnknownPrefix|] == UnknownPrefix && m[|UnknownPrefix|..] == head
  {
    UnknownPrefix + head
  }
}
