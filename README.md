# Operation decoder of bitshares-go, modelled in Dafny

The `types` package of this blockchain JSON-RPC client turns a JSON array of
`[tag, payload]` pairs into a list of `Operation` values. Each tag is looked up
in a registry (`knownOperations`). A registered tag has its payload decoded into
that record type: Transfer, LimitOrderCreate or LimitOrderCancel. An
unregistered tag is kept, together with its unparsed payload, in an
`UnknownOperation`. `Operations.UnmarshalJSON` runs that decoding over every
element in wire order and appends the results to the receiver slice.

The project has three files:

- `wrappers.dfy` holds `Option` and `Result`.
- `json.dfy` (module `Json`) holds JSON values as encoding/json has parsed them.
  It also holds the two behaviours of `json.Unmarshal` that the loop branches
  on: decoding into a `[]json.RawMessage` and decoding into a `uint16`.
- `operations.dfy` (module `Types`) holds the record types, the `Type()`
  accessor, the registry, `unmarshalOperation`, the per-element decoding, and
  the receiver class `Operations` with its imperative `UnmarshalJSON` loop.

`UnmarshalJSON` is proved against a specification function, `DecodeEach`,
which is defined on prefixes in the order the loop visits elements. The
lemmas then say what `DecodeEach` means element by element.

Some of the tag constants and value types are defined outside the modelled
file, so they become inputs:

- The values of `TransferOpType`, `LimitOrderCreateOpType` and
  `LimitOrderCancelOpType` are the datatype `OpTypes`. They are required to
  be distinct, because Go refuses to compile a map literal with two equal
  constant keys.
- The field-level JSON decoding of the three records is the datatype
  `RecordDecoders`: one partial function per record type.
- `ObjectID`, `AssetAmount` and `Time` are abstract types.

Some of the code's behaviour differs from what one might expect of such a
decoder; the model follows the code:

- Decoding is not all-or-nothing, although one might expect it to be. When
  element `i` fails, the operations decoded from elements `0..i-1` have
  already been appended and stay in the receiver. `UnmarshalJSON`'s
  postcondition and the lemmas `DecodedElementwise` and `StopsAtFirstFailure`
  state exactly this.
- A JSON `null` as the outer value is not an error. encoding/json decodes it
  as a nil slice, so the loop runs zero times and nothing is appended
  (`Types.Decode`).
- A `null` element decodes as an empty (nil) slice, which is not a pair and
  so gives the "invalid operation format" error.
- A `null` tag leaves the tag variable at 0 without an error, so it is read
  as tag 0.
- `-0`, negative numbers, numbers with a fraction or an exponent, and numbers
  of 65536 or more are all rejected as tags. The same goes for strings,
  booleans, arrays and objects.

## Model

| member | source | states |
|---|---|---|
| `Json.UnmarshalUint16` | types/operations.go:33-36 | the tag is accepted exactly when it is null or a non-negative integer literal below 65536; the value read is that integer (0 for null); anything else is a type error for uint16 |
| `Json.UnmarshalRawMessages` | types/operations.go:17-27 | decoding into a slice of raw messages succeeds exactly when the value is an array or null; an array yields its elements unchanged and in order, null yields no elements; anything else is a type error for the slice |
| `Types.Operation.Type` | types/operations.go:79-121 | a known record reports the tag constant of its own record type; an unknown operation reports the tag it was read with |
| `Types.KnownOperations` | types/operations.go:67-71 | the registry holds exactly the three tag constants; each registered tag maps to a record type whose own Type() constant is that tag; and each record type is registered under its own constant |
| `Types.TypeOfKnownIsRegistered` | types/operations.go:98-121 | the Type() of every known record is a registered tag, and the registry maps that tag back to the record's own type |
| `Types.DecodeRecord` | types/operations.go:59-63 | a record exists exactly when the registered type's field decoding accepts the payload, and it is the record that decoding produced from this payload, wrapped as that type |
| `Types.UnmarshalOperation` | types/operations.go:49-65 | an unregistered tag always succeeds, giving an unknown operation whose Type() is the tag and whose data is the payload unchanged; for a registered tag, a success is the record decoded from the payload by the registered type, whose Type() is the tag, and it fails, with a payload error naming that type, exactly when the record decoding rejects the payload |
| `Types.DecodeElement` | types/operations.go:24-41 | for one element: a type error for the slice exactly when the element is neither an array nor null; the format error exactly when it is null or an array whose length is not 2; a uint16 type error exactly when it is a pair whose first item is not a valid tag; otherwise the result is that of unmarshalOperation on the tag and the second item |
| `Types.DecodeEach` | types/operations.go:23-44 | the loop appends one operation per element when it completes; when it stops at index `at`, that index is in range and exactly `at` operations have been appended |
| `Types.Decode` | types/operations.go:15-20 | the decode fails before any element is examined exactly when the outer value is neither an array nor null, with the slice type error; null and the empty array decode to nothing with no error; an array runs the loop over its elements |
| `Types.Operations.UnmarshalJSON` | types/operations.go:15-47 | the receiver's new contents are its old contents followed by the operations the loop decoded, in element order; the error returned is the outer error, or the error of the first failing element (with earlier elements kept appended), or none |
| `Types.StoppedIsFinal` | types/operations.go:38-41 | once an element fails, no later element is examined: appending further elements does not change the outcome |
| `Types.DecodedElementwise` | types/operations.go:23-43 | the j-th appended operation is what element j decodes to, and the element where the loop stopped fails with the error returned |
| `Types.CompletedIffAllDecode` | types/operations.go:23-46 | the loop completes without error exactly when every element decodes |
| `Types.StopsAtFirstFailure` | types/operations.go:23-44 | when element i is the first to fail, the loop stops at i, with that element's error, keeping the operations of elements 0..i-1 |
| `Types.TypesMatchWire` | types/operations.go:49-79 | every appended operation came from a well-formed pair, and its Type() is the tag read from that pair; it is unknown exactly when the tag is unregistered, in which case its data is the pair's payload; otherwise it is the record the registered type decoded from the pair's payload |
| `Types.UnknownTagExample` | types/operations.go:50-57 | `[[999, payload]]` with 999 unregistered decodes to a single unknown operation with tag 999 and that payload |
| `Types.TransferExample` | types/operations.go:58-63 | `[[TransferOpType, payload]]` whose payload the transfer record accepts decodes to a single transfer operation holding the record decoded from that payload |
| `Types.RejectedPayloadExample` | types/operations.go:59-62 | `[[TransferOpType, payload]]` whose payload the transfer record rejects stops at index 0 with a payload error naming the transfer type, nothing appended |
| `Types.WrongArityExample` | types/operations.go:29-31 | `[[1,2,3]]` stops at index 0 with the format error and nothing appended |
| `Types.StringTagExample` | types/operations.go:33-36 | `[["not-a-number", {}]]` stops at index 0 with the uint16 type error |

## Left out

- JSON text is not modelled: input arrives as an already-parsed value. A syntax error in the bytes, which `json.Unmarshal` would report at lines 18-19, is therefore not modelled.
- `json.RawMessage` is modelled as the parsed value it holds. Byte-level spelling, such as whitespace or the way a number is written, is not kept, so "verbatim" means equal as a JSON value.
- The field-level decoding of `TransferOperation`, `LimitOrderCreateOperation` and `LimitOrderCancelOperation` is a parameter (`RecordDecoders`). The JSON contracts of `ObjectID`, `AssetAmount` and `Time` are defined elsewhere and are not part of this model.
- The numeric values of the three tag constants are defined elsewhere, so they are a parameter. The width of `OpType` is taken to be 16 bits, the width the tag is read at.
- `reflect.New` is replaced by explicit dispatch over the closed datatype `Shape` (`DecodeRecord`).
- Operations are values: the pointer identity of `&val` is not modelled. The receiver slice is a sequence field, so the sharing of a backing array between slices, which `append` at line 43 can write into, is not modelled either.
- Go error message text is not modelled. Errors are distinguished by kind and, for type errors, by the Go type being decoded into.
- apis/login/api.go and apis/history/data.go are not part of this model. They hold RPC forwarding and plain struct declarations.
