/**
 * The string builders of the read compiler. Generated read functions take
 * `(buffer, offset, …)`; a call passes the buffer and an offset expression,
 * never a value.
 */
module ReadCompiler {
  import opened Js
  import opened Source
  import opened Json
  import opened Registry

  /** `wrapCode(code, args)`: a read function taking the buffer, the offset
      and the extra args. */
  function WrapCode(code: string, args: seq<string>): (r: string)
    ensures r == Block(["buffer", "offset"] + args, code)
  {
    OpenParams(args);
    if |args| > 0 then
      "(buffer, offset, " + Join(args, ", ") + ") => {\n" + Indent(code, TwoSpaces) + "\n}"
    else
      "(buffer, offset) => {\n" + Indent(code, TwoSpaces) + "\n}"
  }

  /** The opening of the parameter list of a read function. */
  lemma OpenParams(args: seq<string>)
    ensures |args| > 0 ==> "(" + Join(["buffer", "offset"] + args, ", ") == "(buffer, offset, " + Join(args, ", ")
    ensures |args| == 0 ==> "(" + Join(["buffer", "offset"] + args, ", ") == "(buffer, offset"
  {
    Leading2("buffer", "offset", args);
    FixedParams();
    if |args| > 0 {
      OpenWithArgs();
      Assoc("(", "buffer, offset" + ", ", Join(args, ", "));
    } else {
      OpenWithoutArgs();
    }
  }

  lemma FixedParams()
    ensures "buffer" + ", " + "offset" == "buffer, offset"
  {
  }

  lemma OpenWithoutArgs()
    ensures "(" + "buffer, offset" == "(buffer, offset"
  {
  }

  lemma OpenWithArgs()
    ensures "(" + ("buffer, offset" + ", ") == "(buffer, offset, "
  {
  }

  /** The call `callType` emits: the buffer, the offset expression, then the
      resolved fields. */
  function Invocation(code: string, offsetExpr: string, fields: seq<string>): (r: string)
    ensures r == Call(code, ["buffer", offsetExpr] + fields)
  {
    Leading2("buffer", offsetExpr, fields);
    if |fields| > 0 then
      "(" + code + ")(buffer, " + offsetExpr + ", " + Join(fields, ", ") + ")"
    else
      "(" + code + ")(buffer, " + offsetExpr + ")"
  }

  /** The error for an array form whose head is neither a maker nor a user
      type: the head is quoted as JSON. */
  function UnknownTypeMessage(head: string): (m: string)
    ensures |m| >= |UnknownPrefix| && m[..|UnknownPrefix|] == UnknownPrefix
    ensures Unquote(m[|UnknownPrefix|..]) == Some(head)
  {
    QuoteRoundTrip(head);
    assert (UnknownPrefix + Quote(head))[|UnknownPrefix|..] == Quote(head);
    UnknownPrefix + Quote(head)
  }
}
