/**
 * The polymorphic operation decoder of the `types` package: a JSON array of
 * `[tag, payload]` pairs becomes a list of Operation values, each payload
 * decoded into the record type the tag is registered for, or kept unparsed
 * in an UnknownOperation when the tag is not registered.
 */
module Types {
  import opened Wrappers
  import opened Json

  /** The numeric operation tag (16 bits wide: the decoder reads it as a uint16). */
  newtype OpType = x: int | 0 <= x < 0x1_0000

  // ---------------------------------------------------------------------------
  // Records

  /** Value types whose definitions and JSON contracts live outside this package. */
  type ObjectID(==)
  type AssetAmount(==)
  type Time(==)

  datatype Memo = Memo(from: string, to: string, nonce: string, message: string)

  datatype TransferOperation = TransferOperation(
    from: ObjectID,
    to: ObjectID,
    amount: AssetAmount,
    fee: AssetAmount,
    memo: Memo,
    extensions: seq<JValue>)

  datatype LimitOrderCreateOperation = LimitOrderCreateOperation(
    fee: AssetAmount,
    seller: ObjectID,
    amountToSell: AssetAmount,
    minToReceive: AssetAmount,
    expiration: Time,
    fillOrKill: bool,
    extensions: seq<JValue>)

  datatype LimitOrderCancelOperation = LimitOrderCancelOperation(
    fee: AssetAmount,
    feePayingAccount: ObjectID,
    order: ObjectID,
    extensions: seq<JValue>)

  /** The record types a tag can be registered for. */
  datatype Shape = TransferShape | LimitOrderCreateShape | LimitOrderCancelShape

  /** The tag constants TransferOpType, LimitOrderCreateOpType and
      LimitOrderCancelOpType, whose values are defined outside this package. */
  datatype OpTypes = OpTypes(transfer: OpType, limitOrderCreate: OpType, limitOrderCancel: OpType)
  {
    /** Go refuses a map literal with two equal constant keys, so the registry
        compiles only when the three constants differ. */
    predicate Distinct()
    {
      transfer != limitOrderCreate && transfer != limitOrderCancel && limitOrderCreate != limitOrderCancel
    }

    /** The constant a record type's Type() method returns. */
    function Of(shape: Shape): OpType
    {
      match shape
      case TransferShape => transfer
      case LimitOrderCreateShape => limitOrderCreate
      case LimitOrderCancelShape => limitOrderCancel
    }
  }

  /** An operation: one of the three known records, or an unknown tag with its
      payload left unparsed. */
  datatype Operation =
    | Transfer(transfer: TransferOperation)
    | LimitOrderCreate(limitOrderCreate: LimitOrderCreateOperation)
    | LimitOrderCancel(limitOrderCancel: LimitOrderCancelOperation)
    | Unknown(kind: OpType, data: JValue)
  {
    /** The record type of a known operation. */
    function KnownShape(): Option<Shape>
    {
      match this
      case Transfer(_) => Some(TransferShape)
      case LimitOrderCreate(_) => Some(LimitOrderCreateShape)
      case LimitOrderCancel(_) => Some(LimitOrderCancelShape)
      case Unknown(_, _) => None
    }

    /** The four Type() methods: a known record reports its type's constant, an
        unknown operation the tag it was read with. */
    function Type(tags: OpTypes): (r: OpType)
      ensures KnownShape().Some? ==> r == tags.Of(KnownShape().value)
      ensures Unknown? ==> r == kind
    {
      match this
      case Unknown(kind, _) => kind
      case _ => tags.Of(KnownShape().value)
    }
  }

  // ---------------------------------------------------------------------------
  // Registry

  /** knownOperations: each registered tag with the record type its payload is
      decoded into; a record type's own Type() reports the tag it is
      registered under. */
  function KnownOperations(tags: OpTypes): (m: map<OpType, Shape>)
    requires tags.Distinct()
    ensures m.Keys == {tags.transfer, tags.limitOrderCreate, tags.limitOrderCancel}
    ensures forall t :: t in m ==> tags.Of(m[t]) == t
    ensures forall s: Shape :: tags.Of(s) in m && m[tags.Of(s)] == s
  {
    map[tags.transfer := TransferShape,
        tags.limitOrderCreate := LimitOrderCreateShape,
        tags.limitOrderCancel := LimitOrderCancelShape]
  }

  /** The Type() of a known record is the tag its type is registered under. */
  lemma TypeOfKnownIsRegistered(tags: OpTypes, op: Operation)
    requires tags.Distinct()
    requires !op.Unknown?
    ensures op.Type(tags) in KnownOperations(tags)
    ensures Some(KnownOperations(tags)[op.Type(tags)]) == op.KnownShape()
  {
  }

  /** The field-level JSON decoding of each record type (json.Unmarshal into a
      fresh record); None when the payload does not fit the record. */
  datatype RecordDecoders = RecordDecoders(
    transfer: JValue -> Option<TransferOperation>,
    limitOrderCreate: JValue -> Option<LimitOrderCreateOperation>,
    limitOrderCancel: JValue -> Option<LimitOrderCancelOperation>)

  /** Everything the decoder takes from outside this package. */
  datatype Env = Env(tags: OpTypes, records: RecordDecoders)
  {
    predicate Valid() { tags.Distinct() }
  }

  /** A fresh record of the registered type, filled from the payload: it
      exists exactly when that type's field decoding accepts the payload, and
      it is the record that decoding produced. */
  function DecodeRecord(records: RecordDecoders, shape: Shape, obj: JValue): (r: Option<Operation>)
    ensures r.Some? ==> r.value.KnownShape() == Some(shape)
    ensures shape == TransferShape ==>
      (r.Some? <==> records.transfer(obj).Some?) &&
      (r.Some? ==> r.value == Transfer(records.transfer(obj).value))
    ensures shape == LimitOrderCreateShape ==>
      (r.Some? <==> records.limitOrderCreate(obj).Some?) &&
      (r.Some? ==> r.value == LimitOrderCreate(records.limitOrderCreate(obj).value))
    ensures shape == LimitOrderCancelShape ==>
      (r.Some? <==> records.limitOrderCancel(obj).Some?) &&
      (r.Some? ==> r.value == LimitOrderCancel(records.limitOrderCancel(obj).value))
  {
    match shape
    case TransferShape =>
      (match records.transfer(obj) case Some(x) => Some(Transfer(x)) case None => None)
    case LimitOrderCreateShape =>
      (match records.limitOrderCreate(obj) case Some(x) => Some(LimitOrderCreate(x)) case None => None)
    case LimitOrderCancelShape =>
      (match records.limitOrderCancel(obj) case Some(x) => Some(LimitOrderCancel(x)) case None => None)
  }

  // ---------------------------------------------------------------------------
  // Decoding

  /** Why a decode fails. */
  datatype Error =
    | Json(cause: UnmarshalError)           // json.Unmarshal rejected a value
    | InvalidOperationFormat                // an element is not a pair: "should be name, value"
    | PayloadError(shape: Shape)            // the registered record rejected the payload

  /** unmarshalOperation: an unregistered tag is wrapped with its payload
      untouched; a registered one decodes the payload into its record type. */
  function UnmarshalOperation(env: Env, opType: OpType, obj: JValue): (r: Result<Operation, Error>)
    requires env.Valid()
    ensures opType !in KnownOperations(env.tags) ==>
      r.Success? && r.value.Unknown? && r.value.Type(env.tags) == opType && r.value.data == obj
    ensures opType in KnownOperations(env.tags) ==>
      var shape := KnownOperations(env.tags)[opType];
      && (r.Success? ==> r.value.KnownShape() == Some(shape) && r.value.Type(env.tags) == opType)
      && (r.Success? ==> Some(r.value) == DecodeRecord(env.records, shape, obj))
      && (r.Failure? <==> DecodeRecord(env.records, shape, obj).None?)
      && (r.Failure? ==> r.error == PayloadError(shape))
  {
    var known := KnownOperations(env.tags);
    if opType !in known then
      Success(Unknown(opType, obj))
    else
      match DecodeRecord(env.records, known[opType], obj)
      case None => Failure(PayloadError(known[opType]))
      case Some(op) => Success(op)
  }

  /** An element that has the structure the loop demands: an array of two. */
  predicate IsPair(elem: JValue)
  {
    elem.JArray? && |elem.elems| == 2
  }

  /** The body of the decoding loop for one element, as a value: the element
      must be an array of exactly two values whose first is a uint16 tag. */
  function DecodeElement(env: Env, elem: JValue): (r: Result<Operation, Error>)
    requires env.Valid()
    ensures r == Failure(Json(UnmarshalTypeError(RawMessageSlice))) <==> !elem.JArray? && !elem.JNull?
    ensures r == Failure(InvalidOperationFormat) <==> elem.JNull? || (elem.JArray? && |elem.elems| != 2)
    ensures r == Failure(Json(UnmarshalTypeError(Uint16))) <==> IsPair(elem) && !IsUint16(elem.elems[0])
    ensures r.Success? ==> IsPair(elem) && IsUint16(elem.elems[0])
    ensures IsPair(elem) && IsUint16(elem.elems[0]) ==>
      r == UnmarshalOperation(env, Uint16Value(elem.elems[0]) as OpType, elem.elems[1])
  {
    match UnmarshalRawMessages(elem)
    case Failure(e) => Failure(Json(e))
    case Success(kv) =>
      if |kv| != 2 then Failure(InvalidOperationFormat)
      else
        match UnmarshalUint16(kv[0])
        case Failure(e) => Failure(Json(e))
        case Success(opType) => UnmarshalOperation(env, opType as OpType, kv[1])
  }

  /** How far the loop gets over a list of elements: either every element was
      decoded, or it stopped at index `at` with `err` after decoding `ops`. */
  datatype Progress =
    | Completed(ops: seq<Operation>)
    | Stopped(ops: seq<Operation>, at: nat, err: Error)
  {
    /** The error the loop returns. */
    function Err(): Option<Error>
    {
      if Stopped? then Some(err) else None
    }
  }

  /** The loop over the elements, defined on prefixes in the order the loop
      visits them: once an element fails, nothing after it is looked at. */
  function DecodeEach(env: Env, elems: seq<JValue>): (p: Progress)
    requires env.Valid()
    ensures p.Completed? ==> |p.ops| == |elems|
    ensures p.Stopped? ==> |p.ops| == p.at < |elems|
    decreases |elems|
  {
    if elems == [] then Completed([])
    else
      var before := DecodeEach(env, elems[..|elems| - 1]);
      if before.Stopped? then before
      else
        match DecodeElement(env, elems[|elems| - 1])
        case Success(op) => Completed(before.ops + [op])
        case Failure(e) => Stopped(before.ops, |elems| - 1, e)
  }

  /** The whole decode: the outer value must be an array (or null, which json
      decodes as an empty slice) before any element is looked at. Failure here
      means only that outer type error; an element that fails is reported
      inside Success, as a Stopped progress carrying the error and the
      operations appended before it. */
  function Decode(env: Env, b: JValue): (r: Result<Progress, Error>)
    requires env.Valid()
    ensures r.Failure? <==> !b.JArray? && !b.JNull?
    ensures r.Failure? ==> r.error == Json(UnmarshalTypeError(RawMessageSlice))
    ensures b == JNull || b == JArray([]) ==> r == Success(Completed([]))
    ensures b.JArray? ==> r == Success(DecodeEach(env, b.elems))
  {
    match UnmarshalRawMessages(b)
    case Failure(e) => Failure(Json(e))
    case Success(o) => Success(DecodeEach(env, o))
  }

  // ---------------------------------------------------------------------------
  // The receiver

  /** Operations: a slice of operations that UnmarshalJSON appends to in place. */
  class Operations {
    var ops: seq<Operation>

    constructor (initial: seq<Operation>)
      ensures ops == initial
    {
      ops := initial;
    }

    /** UnmarshalJSON: appends one operation per element, in order, to what
        `ops` already holds; on the first failing element it returns that
        element's error and keeps what it has appended so far. */
    method UnmarshalJSON(env: Env, b: JValue) returns (err: Option<Error>)
      requires env.Valid()
      modifies this
      ensures match Decode(env, b)
        case Failure(e) => err == Some(e) && ops == old(ops)
        case Success(p) => err == p.Err() && ops == old(ops) + p.ops
    {
      var outer := UnmarshalRawMessages(b);
      if outer.Failure? {
        return Some(Json(outer.error));
      }
      var o := outer.value;
      for i := 0 to |o|
        invariant DecodeEach(env, o[..i]).Completed?
        invariant ops == old(ops) + DecodeEach(env, o[..i]).ops
      {
        assert o[..i + 1][..i] == o[..i];
        var kv := UnmarshalRawMessages(o[i]);
        if kv.Failure? {
          StoppedIsFinal(env, o, i + 1);
          return Some(Json(kv.error));
        }
        if |kv.value| != 2 {
          StoppedIsFinal(env, o, i + 1);
          return Some(InvalidOperationFormat);
        }
        var opType := UnmarshalUint16(kv.value[0]);
        if opType.Failure? {
          StoppedIsFinal(env, o, i + 1);
          return Some(Json(opType.error));
        }
        var val := UnmarshalOperation(env, opType.value as OpType, kv.value[1]);
        if val.Failure? {
          StoppedIsFinal(env, o, i + 1);
          return Some(val.error);
        }
        ops := ops + [val.value];
      }
      assert o[..|o|] == o;
      return None;
    }
  }

  // ---------------------------------------------------------------------------
  // Properties of the loop

  /** Once the loop has stopped on a prefix, the elements after it change nothing. */
  lemma {:induction false} StoppedIsFinal(env: Env, elems: seq<JValue>, n: nat)
    requires env.Valid()
    requires n <= |elems|
    requires DecodeEach(env, elems[..n]).Stopped?
    ensures DecodeEach(env, elems) == DecodeEach(env, elems[..n])
    decreases |elems| - n
  {
    if n < |elems| {
      assert elems[..n + 1][..n] == elems[..n];
      StoppedIsFinal(env, elems, n + 1);
    } else {
      assert elems[..n] == elems;
    }
  }

  /** What the loop has appended is, element by element, what each visited
      element decodes to; and where it stopped, that element failed with the
      error returned. */
  lemma {:induction false} DecodedElementwise(env: Env, elems: seq<JValue>)
    requires env.Valid()
    ensures var p := DecodeEach(env, elems);
      && (forall j :: 0 <= j < |p.ops| ==> DecodeElement(env, elems[j]) == Success(p.ops[j]))
      && (p.Stopped? ==> DecodeElement(env, elems[p.at]) == Failure(p.err))
    decreases |elems|
  {
    if elems != [] {
      var init := elems[..|elems| - 1];
      DecodedElementwise(env, init);
      assert forall j :: 0 <= j < |init| ==> elems[j] == init[j];
    }
  }

  /** The loop completes exactly when every element decodes. */
  lemma {:induction false} CompletedIffAllDecode(env: Env, elems: seq<JValue>)
    requires env.Valid()
    ensures DecodeEach(env, elems).Completed? <==>
      forall i :: 0 <= i < |elems| ==> DecodeElement(env, elems[i]).Success?
    decreases |elems|
  {
    if elems != [] {
      var init := elems[..|elems| - 1];
      CompletedIffAllDecode(env, init);
      assert forall j :: 0 <= j < |init| ==> elems[j] == init[j];
    }
  }

  /** The loop stops at the first element that fails, and with its error. */
  lemma StopsAtFirstFailure(env: Env, elems: seq<JValue>, i: nat)
    requires env.Valid()
    requires i < |elems|
    requires forall j :: 0 <= j < i ==> DecodeElement(env, elems[j]).Success?
    requires DecodeElement(env, elems[i]).Failure?
    ensures DecodeEach(env, elems) ==
      Stopped(DecodeEach(env, elems[..i]).ops, i, DecodeElement(env, elems[i]).error)
  {
    var prefix := elems[..i];
    assert forall j :: 0 <= j < i ==> prefix[j] == elems[j];
    CompletedIffAllDecode(env, prefix);
    assert elems[..i + 1][..i] == prefix;
    StoppedIsFinal(env, elems, i + 1);
  }

  /** No silent tag mutation: every decoded operation reports the tag read off
      its element, and is unknown exactly when that tag is not registered. */
  lemma {:induction false} TypesMatchWire(env: Env, elems: seq<JValue>, j: nat)
    requires env.Valid()
    requires j < |DecodeEach(env, elems).ops|
    ensures j < |elems| && IsPair(elems[j]) && IsUint16(elems[j].elems[0])
    ensures var tag := Uint16Value(elems[j].elems[0]) as OpType;
      var op := DecodeEach(env, elems).ops[j];
      && op.Type(env.tags) == tag
      && (op.Unknown? <==> tag !in KnownOperations(env.tags))
      && (op.Unknown? ==> op.data == elems[j].elems[1])
      && (!op.Unknown? ==> op.KnownShape() == Some(KnownOperations(env.tags)[tag]))
      && (!op.Unknown? ==>
            Some(op) == DecodeRecord(env.records, KnownOperations(env.tags)[tag], elems[j].elems[1]))
  {
    DecodedElementwise(env, elems);
  }

  // ---------------------------------------------------------------------------
  // Worked inputs

  /** `[[999, {"foo":"bar"}]]` with 999 unregistered: one unknown operation
      holding tag 999 and the payload unchanged. */
  lemma UnknownTagExample(env: Env, payload: JValue)
    requires env.Valid()
    requires 999 !in KnownOperations(env.tags)
    ensures Decode(env, JArray([JArray([JInteger(false, 999), payload])])) ==
      Success(Completed([Unknown(999, payload)]))
  {
    var elems := [JArray([JInteger(false, 999), payload])];
    assert elems[..|elems| - 1] == [];
    assert DecodeElement(env, elems[0]) == Success(Unknown(999, payload));
    assert DecodeEach(env, elems) == Completed([Unknown(999, payload)]);
  }

  /** `[[TransferOpType, payload]]` whose payload the transfer record accepts:
      one transfer operation, the record decoded from that payload. */
  lemma TransferExample(env: Env, payload: JValue, t: TransferOperation)
    requires env.Valid()
    requires env.records.transfer(payload) == Some(t)
    ensures Decode(env, JArray([JArray([JInteger(false, env.tags.transfer as int), payload])])) ==
      Success(Completed([Transfer(t)]))
  {
    var elems := [JArray([JInteger(false, env.tags.transfer as int), payload])];
    assert elems[..|elems| - 1] == [];
    assert DecodeElement(env, elems[0]) == Success(Transfer(t));
    assert DecodeEach(env, elems) == Completed([Transfer(t)]);
  }

  /** `[[1,2,3]]`: the first element is not a pair, nothing is decoded. */
  lemma WrongArityExample(env: Env)
    requires env.Valid()
    ensures Decode(env, JArray([JArray([JInteger(false, 1), JInteger(false, 2), JInteger(false, 3)])])) ==
      Success(Stopped([], 0, InvalidOperationFormat))
  {
  }

  /** `[["not-a-number", {}]]`: the tag is rejected by the uint16 decoding. */
  lemma StringTagExample(env: Env)
    requires env.Valid()
    ensures Decode(env, JArray([JArray([JString("not-a-number"), JObject([])])])) ==
      Success(Stopped([], 0, Json(UnmarshalTypeError(Uint16))))
  {
  }

  /** `[[TransferOpType, payload]]` whose payload the transfer record rejects:
      the loop stops at index 0 with a payload error naming the transfer type. */
  lemma RejectedPayloadExample(env: Env, payload: JValue)
    requires env.Valid()
    requires env.records.transfer(payload) == None
    ensures Decode(env, JArray([JArray([JInteger(false, env.tags.transfer as int), payload])])) ==
      Success(Stopped([], 0, PayloadError(TransferShape)))
  {
  }
}
