/** Attribute values (src/value.rs): the decoded `Value` enum, its `Clone`, and
    `decode_value`, which picks the first present field of a wire `Tile.Value`. */
module Values {
  import opened Base
  import opened VectorTile

  /** One attribute value; float payloads are opaque bit patterns. The same enum is
      declared twice in the source (value.rs and tiles.rs) and is modelled once. */
  datatype Value =
    | StringValue(s: string)
    | FloatValue(f: Float32Bits)
    | DoubleValue(d: Float64Bits)
    | IntValue(i: i64)
    | UintValue(u: u64)
    | SintValue(si: i64)
    | BoolValue(b: bool)

  /** `Clone for Value`: rebuilds the same variant around a copy of its payload. */
  function CloneValue(v: Value): (c: Value)
    ensures c == v
  {
    match v
    case StringValue(s) => StringValue(s)
    case FloatValue(f) => FloatValue(f)
    case DoubleValue(d) => DoubleValue(d)
    case IntValue(i) => IntValue(i)
    case UintValue(u) => UintValue(u)
    case SintValue(si) => SintValue(si)
    case BoolValue(b) => BoolValue(b)
  }

  /** Reference: every present field of the wire record, as a `Value`, in the order
      string, float, double, int, uint, sint, bool. */
  function PresentFields(v: ProtoValue): seq<Value>
  {
    (if v.stringValue.Some? then [StringValue(v.stringValue.value)] else []) +
    (if v.floatValue.Some? then [FloatValue(v.floatValue.value)] else []) +
    (if v.doubleValue.Some? then [DoubleValue(v.doubleValue.value)] else []) +
    (if v.intValue.Some? then [IntValue(v.intValue.value)] else []) +
    (if v.uintValue.Some? then [UintValue(v.uintValue.value)] else []) +
    (if v.sintValue.Some? then [SintValue(v.sintValue.value)] else []) +
    (if v.boolValue.Some? then [BoolValue(v.boolValue.value)] else [])
  }

  /** `decode_value` (also `Value::new`, which only forwards to it): the first present
      field wins; a record with no field set decodes to the empty string. */
  function DecodeValue(v: ProtoValue): (r: Value)
    ensures PresentFields(v) != [] ==> r == PresentFields(v)[0]
    ensures PresentFields(v) == [] ==> r == StringValue("")
    ensures v.stringValue.Some? ==> r == StringValue(v.stringValue.value)
  {
    if v.stringValue.Some? then StringValue(v.stringValue.value)
    else if v.floatValue.Some? then FloatValue(v.floatValue.value)
    else if v.doubleValue.Some? then DoubleValue(v.doubleValue.value)
    else if v.intValue.Some? then IntValue(v.intValue.value)
    else if v.uintValue.Some? then UintValue(v.uintValue.value)
    else if v.sintValue.Some? then SintValue(v.sintValue.value)
    else if v.boolValue.Some? then BoolValue(v.boolValue.value)
    else StringValue("")
  }

  /** The wire record carrying no field at all. */
  const NO_FIELDS := ProtoValue(None, None, None, None, None, None, None)

  /** With exactly one field set, the result is the matching variant with that payload;
      with none set, it is the empty string. */
  lemma DecodeSingleField(s: string, f: Float32Bits, d: Float64Bits, i: i64, u: u64, si: i64, b: bool)
    ensures DecodeValue(NO_FIELDS) == StringValue("")
    ensures DecodeValue(NO_FIELDS.(stringValue := Some(s))) == StringValue(s)
    ensures DecodeValue(NO_FIELDS.(floatValue := Some(f))) == FloatValue(f)
    ensures DecodeValue(NO_FIELDS.(doubleValue := Some(d))) == DoubleValue(d)
    ensures DecodeValue(NO_FIELDS.(intValue := Some(i))) == IntValue(i)
    ensures DecodeValue(NO_FIELDS.(uintValue := Some(u))) == UintValue(u)
    ensures DecodeValue(NO_FIELDS.(sintValue := Some(si))) == SintValue(si)
    ensures DecodeValue(NO_FIELDS.(boolValue := Some(b))) == BoolValue(b)
  {
  }
}
