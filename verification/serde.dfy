/** The crate's optional `serde` support, reduced to its pure part.

    Both types serialise transparently, as the plain string they hold, so
    the value handed to the serializer is modelled as the content itself.
    Deserialising a `LimitedString` first reads a plain string (the
    deserializer's own work, modelled as an already-decoded input that may
    have failed) and then validates it with `from_string`, turning a
    rejection into an invalid-length error that carries the observed byte
    length. */
module LimitedSerde {
  import opened Wrappers
  import opened Limited

  /** The deserializer's error type: serde's `invalid_length` error, which
      carries the observed length and a description of what was expected,
      or any other failure of reading the underlying string. */
  datatype DeError =
    | InvalidLength(len: nat, expected: string)
    | Custom(msg: string)

  /** The description the crate attaches to an invalid-length error. */
  const Expected: string := "a string that has a length less than max length"

  /** The plain string a `LimitedStr` serialises as: exactly its content,
      with no length field or envelope, so validating it under the view's
      bound gives the view back. */
  function SerializeStr(v: LimitedStr): (wire: Bytes)
    ensures wire == v.str
    ensures FromStr(v.maxLength, wire) == Some(v)
  {
    v.str
  }

  /** The plain string a `LimitedString` serialises as: exactly its
      content, so deserialising it under the buffer's bound gives the
      buffer back. */
  function SerializeString(o: LimitedString): (wire: Bytes)
    ensures wire == o.str
    ensures Deserialize(o.maxLength, Ok(wire)) == Ok(o)
  {
    o.str
  }

  /** `Deserialize for LimitedString` after the string has been read: a
      failed read is passed through untouched; a string within the bound
      becomes a buffer holding exactly that string; a longer one becomes an
      invalid-length error carrying its byte length. */
  function Deserialize(maxLength: nat, decoded: Result<Bytes, DeError>): (r: Result<LimitedString, DeError>)
    ensures decoded.Err? ==> r == Err(decoded.error)
    ensures decoded.Ok? && |decoded.value| <= maxLength ==>
              r.Ok? && r.value.str == decoded.value && r.value.maxLength == maxLength
    ensures decoded.Ok? && |decoded.value| > maxLength ==>
              r == Err(InvalidLength(|decoded.value|, Expected))
  {
    match decoded
    case Err(e) => Err(e)
    case Ok(s) =>
      match FromString(maxLength, s)
      case Ok(o) => Ok(o)
      case Err(rejected) => Err(InvalidLength(|rejected|, Expected))
  }

  /** Deserialisation admits exactly what `from_string` admits: the wire
      is validated by the same constructor as programmatic input. */
  lemma DeserializeAgreesWithFromString(maxLength: nat, s: Bytes)
    ensures Deserialize(maxLength, Ok(s)).Ok? <==> FromString(maxLength, s).Ok?
    ensures FromString(maxLength, s).Ok? ==>
              Deserialize(maxLength, Ok(s)).value == FromString(maxLength, s).value
  {
  }

  /** Serialising a buffer and deserialising the result under the same
      bound gives the buffer back. */
  lemma SerializeRoundTrip(o: LimitedString)
    ensures Deserialize(o.maxLength, Ok(SerializeString(o))) == Ok(o)
  {
  }

  /** A view serialises exactly as the buffer it borrows from, and as the
      buffer copied from it: the wire never depends on which of the two
      types is written. */
  lemma SerializationIsTransparent(o: LimitedString, v: LimitedStr)
    ensures SerializeStr(Borrow(o)) == SerializeString(o) == o.str
    ensures SerializeString(ToOwned(v)) == SerializeStr(v) == v.str
  {
  }

  /** An example with bound 5: "abcde" is admitted
      unchanged, and "abcdef" is refused with observed length 6. */
  lemma DeserializeBoundFiveExample()
    ensures Deserialize(5, Ok([0x61, 0x62, 0x63, 0x64, 0x65])).Ok?
    ensures Deserialize(5, Ok([0x61, 0x62, 0x63, 0x64, 0x65])).value.str == [0x61, 0x62, 0x63, 0x64, 0x65]
    ensures Deserialize(5, Ok([0x61, 0x62, 0x63, 0x64, 0x65, 0x66])) == Err(InvalidLength(6, Expected))
  {
  }
}
