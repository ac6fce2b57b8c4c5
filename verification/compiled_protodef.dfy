/**
 * The compiled protocol: three tables of generated functions (size-of,
 * write and read), looked up by type name, and the two packet helpers built
 * on them. What a generated function does when called is not visible here;
 * `Runtime` stands for it.
 */
module Compiled {
  import opened Js

  /** A compiled table: type name (or variable name) to value. */
  type Ctx = map<string, JsValue>

  /** `ctx[key]`: an absent key reads `undefined`. */
  function Lookup(ctx: Ctx, key: string): JsValue {
    if key in ctx then ctx[key] else Undefined
  }

  /** What a read function returns: the value and the number of bytes read. */
  datatype ReadResult = ReadResult(value: JsValue, size: int)

  /** The behaviour of the generated functions, by function identity. Each
      one is given the table it lives in, so a variable set later is visible
      to it. A write yields the buffer contents after writing and its own
      return value; `unsafeByte(n, i)` is byte `i` of a fresh, uninitialised
      allocation of `n` bytes. */
  datatype Runtime = Runtime(
    read: (nat, Ctx, seq<bv8>, int) -> Result<ReadResult>,
    write: (nat, Ctx, JsValue, seq<bv8>, int) -> Result<(seq<bv8>, JsValue)>,
    sizeOf: (nat, Ctx, JsValue) -> Result<JsValue>,
    unsafeByte: (nat, nat) -> bv8)

  /** The object `parsePacketBuffer` returns. */
  datatype Parsed = Parsed(data: JsValue, size: int, buffer: seq<bv8>, fullBuffer: seq<bv8>)

  function MissingType(t: string): Error {
    Error("missing data type: " + t, None)
  }

  /** `${e.field}` */
  function FieldText(field: Option<string>): string {
    if field.Some? then field.value else "undefined"
  }

  /** The handlers of `tryCatch`: the message gets the stage and the field in
      front of it, and the same error is rethrown. */
  function Annotate(stage: string, e: Error): Error {
    Error(stage + " error for " + FieldText(e.field) + " : " + e.message, e.field)
  }

  /** `Buffer.allocUnsafe(size)` */
  function AllocUnsafe(rt: Runtime, size: JsValue): (r: Result<seq<bv8>>)
    ensures r.Ok? <==> size.Number? && size.n >= 0
    ensures r.Ok? ==> |r.value| == size.n
  {
    if !size.Number? then Throw("The \"size\" argument must be of type number.")
    else if size.n < 0 then Throw("The value of \"size\" is out of range.")
    else Ok(seq(size.n, i requires 0 <= i < size.n => rt.unsafeByte(size.n, i)))
  }

  /** A buffer keeps its length: a write changes bytes inside it only. */
  function Overlay(buffer: seq<bv8>, written: seq<bv8>): (r: seq<bv8>)
    ensures |r| == |buffer|
    ensures forall i :: 0 <= i < |r| && i < |written| ==> r[i] == written[i]
    ensures forall i :: |written| <= i < |r| ==> r[i] == buffer[i]
  {
    seq(|buffer|, i requires 0 <= i < |buffer| => if i < |written| then written[i] else buffer[i])
  }

  /** Where `buffer.slice(0, end)` ends: a negative end counts back from the
      length, and the end never passes the length. */
  function SliceEnd(length: nat, end: int): (e: nat)
    ensures e <= length
    ensures 0 <= end <= length ==> e == end
  {
    if end < 0 then (if length + end > 0 then length + end else 0)
    else if end > length then length
    else end
  }

  class CompiledProtodef {
    var sizeOfCtx: Ctx
    var writeCtx: Ctx
    var readCtx: Ctx

    constructor (sizeOfCtx: Ctx, writeCtx: Ctx, readCtx: Ctx)
      ensures this.sizeOfCtx == sizeOfCtx && this.writeCtx == writeCtx && this.readCtx == readCtx
    {
      this.sizeOfCtx := sizeOfCtx;
      this.writeCtx := writeCtx;
      this.readCtx := readCtx;
    }

    /** `read(buffer, cursor, type)`: a success is the entry's own result on
        the same buffer and cursor. */
    function Read(rt: Runtime, buffer: seq<bv8>, cursor: int, t: string): (r: Result<ReadResult>)
      reads this
      ensures !Truthy(Lookup(readCtx, t)) ==> r == Err(MissingType(t))
      ensures r.Ok? ==> Lookup(readCtx, t).Function? && r == rt.read(Lookup(readCtx, t).id, readCtx, buffer, cursor)
    {
      var readFn := Lookup(readCtx, t);
      if !Truthy(readFn) then Err(MissingType(t))
      else if readFn.Function? then rt.read(readFn.id, readCtx, buffer, cursor)
      else Throw("readFn is not a function")
    }

    /** `write(value, buffer, cursor, type)` */
    function Write(rt: Runtime, value: JsValue, buffer: seq<bv8>, cursor: int, t: string): (r: Result<(seq<bv8>, JsValue)>)
      reads this
      ensures !Truthy(Lookup(writeCtx, t)) ==> r == Err(MissingType(t))
      ensures r.Ok? ==> Lookup(writeCtx, t).Function? && r == rt.write(Lookup(writeCtx, t).id, writeCtx, value, buffer, cursor)
    {
      var writeFn := Lookup(writeCtx, t);
      if !Truthy(writeFn) then Err(MissingType(t))
      else if writeFn.Function? then rt.write(writeFn.id, writeCtx, value, buffer, cursor)
      else Throw("writeFn is not a function")
    }

    /** `sizeOf(value, type)`: a function entry is called with the value, any
        other truthy entry is itself the size. */
    function SizeOf(rt: Runtime, value: JsValue, t: string): (r: Result<JsValue>)
      reads this
      ensures !Truthy(Lookup(sizeOfCtx, t)) ==> r == Err(MissingType(t))
      ensures Truthy(Lookup(sizeOfCtx, t)) && !Lookup(sizeOfCtx, t).Function? ==> r == Ok(Lookup(sizeOfCtx, t))
      ensures r.Err? ==> r == Err(MissingType(t)) || Lookup(sizeOfCtx, t).Function?
    {
      var sizeFn := Lookup(sizeOfCtx, t);
      if !Truthy(sizeFn) then Err(MissingType(t))
      else if sizeFn.Function? then rt.sizeOf(sizeFn.id, sizeOfCtx, value)
      else Ok(sizeFn)
    }

    /** `setVariable(key, val)`: the same value under the same key in all
        three tables, and nothing else changes. */
    method SetVariable(key: string, val: JsValue)
      modifies this
      ensures sizeOfCtx == old(sizeOfCtx)[key := val]
      ensures readCtx == old(readCtx)[key := val]
      ensures writeCtx == old(writeCtx)[key := val]
    {
      sizeOfCtx := sizeOfCtx[key := val];
      readCtx := readCtx[key := val];
      writeCtx := writeCtx[key := val];
    }

    /** `createPacketBuffer(type, packet)`: a buffer of exactly the computed
        size, written from offset 0; a failing size or write is rethrown with
        its stage in the message, a size that is not a count fails in the
        allocation. */
    function CreatePacketBuffer(rt: Runtime, t: string, packet: JsValue): (r: Result<seq<bv8>>)
      reads this
      ensures r.Ok? ==> SizeOf(rt, packet, t) == Ok(Number(|r.value|))
      ensures r.Ok? ==>
        var alloc := AllocUnsafe(rt, Number(|r.value|)).value;
        var w := Write(rt, packet, alloc, 0, t);
        w.Ok? && r.value == Overlay(alloc, w.value.0)
      ensures SizeOf(rt, packet, t).Err? ==> r == Err(Annotate("SizeOf", SizeOf(rt, packet, t).error))
      ensures SizeOf(rt, packet, t).Ok? && AllocUnsafe(rt, SizeOf(rt, packet, t).value).Ok? ==>
        var w := Write(rt, packet, AllocUnsafe(rt, SizeOf(rt, packet, t).value).value, 0, t);
        w.Err? ==> r == Err(Annotate("Write", w.error))
    {
      var length := SizeOf(rt, packet, t);
      if length.Err? then Err(Annotate("SizeOf", length.error))
      else
        var buffer := AllocUnsafe(rt, length.value);
        if buffer.Err? then Err(buffer.error)
        else
          var written := Write(rt, packet, buffer.value, 0, t);
          if written.Err? then Err(Annotate("Write", written.error))
          else Ok(Overlay(buffer.value, written.value.0))
    }

    /** `parsePacketBuffer(type, buffer, offset)`: the read value and size,
        the bytes from the start of the buffer (not from the offset) up to
        the size, and the whole input. */
    function ParsePacketBuffer(rt: Runtime, t: string, buffer: seq<bv8>, offset: int := 0): (r: Result<Parsed>)
      reads this
      ensures Read(rt, buffer, offset, t).Err? ==> r == Err(Annotate("Read", Read(rt, buffer, offset, t).error))
      ensures r.Ok? ==>
        var read := Read(rt, buffer, offset, t);
        read.Ok? && r.value.data == read.value.value && r.value.size == read.value.size
      ensures r.Ok? ==> r.value.fullBuffer == buffer && r.value.buffer <= buffer
      ensures r.Ok? && 0 <= r.value.size <= |buffer| ==> |r.value.buffer| == r.value.size
    {
      var read := Read(rt, buffer, offset, t);
      if read.Err? then Err(Annotate("Read", read.error))
      else
        var ReadResult(value, size) := read.value;
        Ok(Parsed(value, size, buffer[..SliceEnd(|buffer|, size)], buffer))
    }
  }
}
