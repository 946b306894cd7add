/** Native-order fixed-width decoders: each splits a byte sequence into a
    value and the bytes that follow it. */
module Utils {
  import opened Results
  import opened ByteOrder
  import opened Errors

  /** The four types with a `Deserialize` implementation. */
  datatype UnsignedInt = U8 | U16 | U32 | U64

  /** `size_of::<T>()`. */
  function SizeOf(t: UnsignedInt): nat
  {
    match t
    case U8 => 1
    case U16 => 2
    case U32 => 4
    case U64 => 8
  }

  /** A decoded value together with the bytes that follow it. */
  datatype Decoded<+T> = Decoded(value: T, rest: seq<uint8>)

  /** `T::deserialize`: accepts exactly `size_of::<T>()` bytes and reads
      them in the host's byte order. */
  function Deserialize(host: Endian, t: UnsignedInt, bytes: seq<uint8>): (r: Result<nat, ParseError>)
    ensures r.Ok? <==> |bytes| == SizeOf(t)
    ensures r.Err? ==> r.error == OutOfBound
    ensures r.Ok? ==> r.value < Pow256(SizeOf(t)) && ToNativeBytes(host, r.value, SizeOf(t)) == bytes
  {
    if |bytes| == SizeOf(t) then
      NativeBytesOfValue(host, bytes);
      Ok(FromNativeBytes(host, bytes))
    else
      Err(OutOfBound)
  }

  /** `deserialize_into::<T>`: the value held by the first
      `size_of::<T>()` bytes and the bytes after them. */
  function DeserializeInto(host: Endian, t: UnsignedInt, bytes: seq<uint8>): (r: Result<Decoded<nat>, ParseError>)
    ensures r.Err? <==> |bytes| < SizeOf(t)
    ensures r.Err? ==> r.error == NotEnoughData
    ensures r.Ok? ==> r.value.value == FromNativeBytes(host, bytes[..SizeOf(t)])
    ensures r.Ok? ==> r.value.value < Pow256(SizeOf(t))
    ensures r.Ok? ==> r.value.rest == bytes[SizeOf(t)..]
    ensures r.Ok? ==> bytes == ToNativeBytes(host, r.value.value, SizeOf(t)) + r.value.rest
    ensures r.Ok? && t == U8 ==> bytes == [r.value.value] + r.value.rest
  {
    var size := SizeOf(t);
    if |bytes| < size then
      Err(NotEnoughData)
    else
      match Deserialize(host, t, bytes[..size])
      case Err(e) => Err(e)
      case Ok(v) =>
        assert bytes == bytes[..size] + bytes[size..];
        Pow256Widths();
        NativeSingleByte(host, if t == U8 then v else 0);
        Ok(Decoded(v, bytes[size..]))
  }

  /** Decoding the native encoding of a value gives back that value and
      exactly the bytes that followed it. */
  lemma DeserializeIntoRoundTrip(host: Endian, t: UnsignedInt, n: nat, rest: seq<uint8>)
    requires n < Pow256(SizeOf(t))
    ensures DeserializeInto(host, t, ToNativeBytes(host, n, SizeOf(t)) + rest) == Ok(Decoded(n, rest))
  {
    var bytes := ToNativeBytes(host, n, SizeOf(t)) + rest;
    assert bytes[..SizeOf(t)] == ToNativeBytes(host, n, SizeOf(t));
    assert bytes[SizeOf(t)..] == rest;
    NativeRoundTrip(host, n, SizeOf(t));
  }

  /** `deserialize_into_string`: the first `length` bytes and the bytes
      after them. The text is kept as raw bytes. */
  function DeserializeIntoString(bytes: seq<uint8>, length: uint16): (r: Result<Decoded<seq<uint8>>, ParseError>)
    ensures r.Err? <==> |bytes| < length
    ensures r.Err? ==> r.error == NotEnoughData
    ensures r.Ok? ==> |r.value.value| == length && bytes == r.value.value + r.value.rest
  {
    if |bytes| < length then
      Err(NotEnoughData)
    else
      assert bytes == bytes[..length] + bytes[length..];
      Ok(Decoded(bytes[..length], bytes[length..]))
  }

  /** The text returned depends on the first `length` bytes only. */
  lemma DeserializeIntoStringPrefix(a: seq<uint8>, b: seq<uint8>, length: uint16)
    requires length <= |a| && length <= |b| && a[..length] == b[..length]
    ensures DeserializeIntoString(a, length).value.value == DeserializeIntoString(b, length).value.value
  {
  }
}
