/** The wire vocabulary shared by the debugger and the proxy: the five value
    kinds of the protocol, commands, and raw bytes. The codec itself (decoding,
    encoding, rendering) is not part of this model; where the core calls it,
    it appears as a function-typed parameter. */
module Resp {
  import opened Wrappers

  newtype byte = x: int | 0 <= x < 256

  /** Raw protocol bytes. */
  type Bytes = seq<byte>

  /** A command: verb followed by its arguments. */
  type Command = seq<string>

  /** A decoded protocol value. A null bulk string is `BulkString(None)`, a null
      array `ArrayValue(None)`. */
  datatype Value =
    | SimpleString(text: string)
    | ErrorString(text: string)
    | Integer(number: int)
    | BulkString(bulk: Option<string>)
    | ArrayValue(items: Option<seq<Value>>)

  /** Whether the decoder hands `v` to JavaScript as a string primitive
      (`typeof v === 'string'`): simple strings and non-null bulk strings. */
  predicate IsString(v: Value) {
    v.SimpleString? || (v.BulkString? && v.bulk.Some?)
  }

  /** The JavaScript string a string value decodes to. */
  function StringOf(v: Value): (r: string)
    requires IsString(v)
  {
    if v.SimpleString? then v.text else v.bulk.value
  }

  /** `v === t` for a JavaScript string `t`. */
  predicate IsStringEqual(v: Value, t: string) {
    IsString(v) && StringOf(v) == t
  }
}
