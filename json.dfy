/**
 * JSON values as Go's encoding/json has already parsed them, and the two
 * behaviours of json.Unmarshal that the operation decoder depends on:
 * decoding into a []json.RawMessage and decoding into a uint16.
 *
 * A json.RawMessage is the unparsed text of one JSON value; here it is the
 * parsed value itself, so "kept verbatim" is stated as equality of values.
 */
module Json {
  import opened Wrappers

  /** One JSON value. A number without fraction or exponent is kept as its sign
      and magnitude (so that "-0" stays distinguishable from "0"); any other
      number is kept as its literal text. The parser builds JFraction only for
      a literal with a fraction or an exponent: every integer literal is a
      JInteger, and the decoding below relies on that. */
  datatype JValue =
    | JNull
    | JBool(b: bool)
    | JInteger(negative: bool, magnitude: nat)
    | JFraction(literal: string)
    | JString(s: string)
    | JArray(elems: seq<JValue>)
    | JObject(members: seq<(string, JValue)>)

  /** Width of Go's uint16. */
  const Uint16Limit: int := 0x1_0000

  type uint16 = x: int | 0 <= x < Uint16Limit

  /** The Go types the decoder unmarshals into directly. */
  datatype GoType = RawMessageSlice | Uint16

  /** encoding/json's UnmarshalTypeError: the JSON value does not fit the Go type. */
  datatype UnmarshalError = UnmarshalTypeError(into: GoType)

  /** json.Unmarshal into a fresh []json.RawMessage: an array yields its
      elements unparsed; null leaves the slice nil (empty); anything else is a
      type error. */
  function UnmarshalRawMessages(v: JValue): (r: Result<seq<JValue>, UnmarshalError>)
    ensures r.Success? <==> v.JArray? || v.JNull?
    ensures r.Success? ==> r.value == (if v.JNull? then [] else v.elems)
    ensures r.Failure? ==> r.error == UnmarshalTypeError(RawMessageSlice)
  {
    match v
    case JArray(elems) => Success(elems)
    case JNull => Success([])
    case _ => Failure(UnmarshalTypeError(RawMessageSlice))
  }

  /** json.Unmarshal into a fresh uint16 variable: an integer literal is parsed
      as unsigned decimal and must fit in 16 bits ("-0" and every negative
      literal fail the unsigned parse); null leaves the variable at zero without
      an error; a fraction, an exponent or any non-number is a type error. */
  function UnmarshalUint16(v: JValue): (r: Result<uint16, UnmarshalError>)
    ensures r.Success? <==> IsUint16(v)
    ensures r.Success? ==> r.value == Uint16Value(v)
    ensures r.Failure? ==> r.error == UnmarshalTypeError(Uint16)
  {
    match v
    case JNull => Success(0)
    case JInteger(negative, magnitude) =>
      if !negative && magnitude < Uint16Limit then Success(magnitude)
      else Failure(UnmarshalTypeError(Uint16))
    case _ => Failure(UnmarshalTypeError(Uint16))
  }

  /** The values json.Unmarshal accepts into a uint16. */
  predicate IsUint16(v: JValue)
  {
    v.JNull? || (v.JInteger? && !v.negative && v.magnitude < Uint16Limit)
  }

  /** The number a value accepted by IsUint16 stands for. */
  function Uint16Value(v: JValue): uint16
    requires IsUint16(v)
  {
    if v.JNull? then 0 else v.magnitude
  }
}
