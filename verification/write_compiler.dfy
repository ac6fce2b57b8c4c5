/**
 * The string builders of the write compiler. Generated write functions take
 * `(value, buffer, offset, …)`; a call passes the value, the buffer and an
 * offset expression.
 */
module WriteCompiler {
  import opened Js
  import opened Source
  import opened Registry

  /** `wrapCode(code, args)`: a write function taking the value, the buffer,
      the offset and the extra args. */
  function WrapCode(code: string, args: seq<string>): (r: string)
    ensures r == Block(["value", "buffer", "offset"] + args, code)
  {
    OpenParams(args);
    if |args| > 0 then
      "(value, buffer, offset, " + Join(args, ", ") + ") => {\n" + Indent(code, TwoSpaces) + "\n}"
    else
      "(value, buffer, offset) => {\n" + Indent(code, TwoSpaces) + "\n}"
  }

  /** The opening of the parameter list of a write function. */
  lemma OpenParams(args: seq<string>)
    ensures |args| > 0 ==> "(" + Join(["value", "buffer", "offset"] + args, ", ") == "(value, buffer, offset, " + Join(args, ", ")
    ensures |args| == 0 ==> "(" + Join(["value", "buffer", "offset"] + args, ", ") == "(value, buffer, offset"
  {
    Leading3("value", "buffer", "offset", args);
    FixedParams();
    if |args| > 0 {
      OpenWithArgs();
      Assoc("(", "value, buffer, offset" + ", ", Join(args, ", "));
    } else {
      OpenWithoutArgs();
    }
  }

  lemma FixedParams()
    ensures "value" + ", " + "buffer" + ", " + "offset" == "value, buffer, offset"
  {
  }

  lemma OpenWithoutArgs()
    ensures "(" + "value, buffer, offset" == "(value, buffer, offset"
  {
  }

  lemma OpenWithArgs()
    ensures "(" + ("value, buffer, offset" + ", ") == "(value, buffer, offset, "
  {
  }

  /** The call `callType` emits: the value expression, the buffer, the
      offset expression, then the resolved fields. */
  function Invocation(code: string, value: string, offsetExpr: string, fields: seq<string>): (r: string)
    ensures r == Call(code, [value, "buffer", offsetExpr] + fields)
  {
    Leading3(value, "buffer", offsetExpr, fields);
    if |fields| > 0 then
      "(" + code + ")(" + value + ", buffer, " + offsetExpr + ", " + Join(fields, ", ") + ")"
    else
      "(" + code + ")(" + value + ", buffer, " + offsetExpr + ")"
  }

  /** The error for an array form whose head is neither a maker nor a user
      type: the head is appended as it is. */
  function UnknownTypeMessage(head: string): (m: string)
    ensures |m| >= |UnknownPrefix| && m[..|UnknownPrefix|] == UnknownPrefix && m[|UnknownPrefix|..] == head
  {
    UnknownPrefix + head
  }
}
