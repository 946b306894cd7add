/** Fixed-width unsigned integers, their little- and big-endian byte
    encodings, the host byte-order marker and the two 16-bit writers. */
module ByteOrder {

  type uint8 = x: int | 0 <= x < 0x100
  type uint16 = x: int | 0 <= x < 0x1_0000
  type uint32 = x: int | 0 <= x < 0x1_0000_0000
  type uint64 = x: int | 0 <= x < 0x1_0000_0000_0000_0000

  /** 256^n: one more than the largest value that n bytes hold. */
  function Pow256(n: nat): (r: nat)
    ensures r > 0
  {
    if n == 0 then 1 else 256 * Pow256(n - 1)
  }

  lemma Pow256Widths()
    ensures Pow256(1) == 0x100 && Pow256(2) == 0x1_0000
    ensures Pow256(4) == 0x1_0000_0000 && Pow256(8) == 0x1_0000_0000_0000_0000
  {
  }

  /** The value of bytes stored least significant first (`from_le_bytes`). */
  function LittleEndianValue(bs: seq<uint8>): (r: nat)
    ensures r < Pow256(|bs|)
  {
    if bs == [] then 0 else bs[0] + 256 * LittleEndianValue(bs[1..])
  }

  /** The value of bytes stored most significant first (`from_be_bytes`). */
  function BigEndianValue(bs: seq<uint8>): (r: nat)
    ensures r < Pow256(|bs|)
  {
    if bs == [] then 0 else 256 * BigEndianValue(bs[..|bs| - 1]) + bs[|bs| - 1]
  }

  /** The `width` low-order bytes of `n`, least significant first (`to_le_bytes`). */
  function LittleEndianBytes(n: nat, width: nat): (r: seq<uint8>)
    ensures |r| == width
  {
    if width == 0 then [] else [n % 256] + LittleEndianBytes(n / 256, width - 1)
  }

  /** The `width` low-order bytes of `n`, most significant first (`to_be_bytes`). */
  function BigEndianBytes(n: nat, width: nat): (r: seq<uint8>)
    ensures |r| == width
  {
    if width == 0 then [] else BigEndianBytes(n / 256, width - 1) + [n % 256]
  }

  lemma {:induction false} LittleEndianRoundTrip(n: nat, width: nat)
    requires n < Pow256(width)
    ensures LittleEndianValue(LittleEndianBytes(n, width)) == n
  {
    if width > 0 {
      var bs := LittleEndianBytes(n, width);
      assert bs[1..] == LittleEndianBytes(n / 256, width - 1);
      LittleEndianRoundTrip(n / 256, width - 1);
    }
  }

  lemma {:induction false} LittleEndianBytesOfValue(bs: seq<uint8>)
    ensures LittleEndianBytes(LittleEndianValue(bs), |bs|) == bs
  {
    if bs != [] {
      var n := LittleEndianValue(bs);
      assert n % 256 == bs[0] && n / 256 == LittleEndianValue(bs[1..]);
      LittleEndianBytesOfValue(bs[1..]);
    }
  }

  lemma {:induction false} BigEndianRoundTrip(n: nat, width: nat)
    requires n < Pow256(width)
    ensures BigEndianValue(BigEndianBytes(n, width)) == n
  {
    if width > 0 {
      var bs := BigEndianBytes(n, width);
      assert bs[..width - 1] == BigEndianBytes(n / 256, width - 1);
      BigEndianRoundTrip(n / 256, width - 1);
    }
  }

  lemma {:induction false} BigEndianBytesOfValue(bs: seq<uint8>)
    ensures BigEndianBytes(BigEndianValue(bs), |bs|) == bs
  {
    if bs != [] {
      var k := |bs| - 1;
      var n := BigEndianValue(bs);
      assert n % 256 == bs[k] && n / 256 == BigEndianValue(bs[..k]);
      BigEndianBytesOfValue(bs[..k]);
      assert bs == bs[..k] + [bs[k]];
    }
  }

  /** The host's byte order: `target_endian` of the compiled program. */
  datatype Endian = Little | Big

  /** `BYTE_ORDER`: the marker a client sends first, 'l' on a little-endian
      host and 'B' on any other. */
  function ByteOrderMarker(host: Endian): (b: uint8)
    ensures b == 'l' as int <==> host == Little
    ensures b == 'B' as int <==> host == Big
  {
    match host
    case Little => 'l' as int
    case Big => 'B' as int
  }

  /** `from_ne_bytes`: the value of bytes in the host's own order. */
  function FromNativeBytes(host: Endian, bs: seq<uint8>): (r: nat)
    ensures r < Pow256(|bs|)
  {
    match host
    case Little => LittleEndianValue(bs)
    case Big => BigEndianValue(bs)
  }

  /** `to_ne_bytes`: the `width` low-order bytes of `n` in the host's own order. */
  function ToNativeBytes(host: Endian, n: nat, width: nat): (r: seq<uint8>)
    ensures |r| == width
  {
    match host
    case Little => LittleEndianBytes(n, width)
    case Big => BigEndianBytes(n, width)
  }

  /** A single byte reads the same in either order. */
  lemma NativeSingleByte(host: Endian, b: uint8)
    ensures ToNativeBytes(host, b, 1) == [b]
  {
    assert LittleEndianBytes(b, 1) == [b % 256] + LittleEndianBytes(b / 256, 0);
    assert BigEndianBytes(b, 1) == BigEndianBytes(b / 256, 0) + [b % 256];
  }

  lemma NativeRoundTrip(host: Endian, n: nat, width: nat)
    requires n < Pow256(width)
    ensures FromNativeBytes(host, ToNativeBytes(host, n, width)) == n
  {
    match host
    case Little => LittleEndianRoundTrip(n, width);
    case Big => BigEndianRoundTrip(n, width);
  }

  lemma NativeBytesOfValue(host: Endian, bs: seq<uint8>)
    ensures ToNativeBytes(host, FromNativeBytes(host, bs), |bs|) == bs
  {
    match host
    case Little => LittleEndianBytesOfValue(bs);
    case Big => BigEndianBytesOfValue(bs);
  }

  /** `BigEndian::write_u16`: overwrites `buf[..2]` with `n` most significant
      byte first; a buffer shorter than 2 makes the source panic. */
  method BigEndianWriteU16(buf: array<uint8>, n: uint16)
    requires buf.Length >= 2
    modifies buf
    ensures buf[0] == n / 256 && buf[1] == n % 256
    ensures buf[..] == BigEndianBytes(n, 2) + old(buf[2..])
  {
    var bytes := BigEndianBytes(n, 2);
    BigEndianU16RoundTrip(n);
    buf[0], buf[1] := bytes[0], bytes[1];
  }

  /** `LittleEndian::write_u16`: overwrites `buf[..2]` with `n` least
      significant byte first; a buffer shorter than 2 makes the source panic. */
  method LittleEndianWriteU16(buf: array<uint8>, n: uint16)
    requires buf.Length >= 2
    modifies buf
    ensures buf[0] == n % 256 && buf[1] == n / 256
    ensures buf[..] == LittleEndianBytes(n, 2) + old(buf[2..])
  {
    var bytes := LittleEndianBytes(n, 2);
    assert LittleEndianBytes(n / 256, 1) == [n / 256 % 256] + LittleEndianBytes(n / 256 / 256, 0);
    assert bytes == [n % 256, n / 256];
    buf[0], buf[1] := bytes[0], bytes[1];
  }

  /** Reading back what `BigEndian::write_u16` wrote, the way the
      Xauthority length fields are read, gives the value written. */
  lemma BigEndianU16RoundTrip(n: uint16)
    ensures BigEndianValue(BigEndianBytes(n, 2)) == n
    ensures BigEndianBytes(n, 2) == [n / 256, n % 256]
  {
    BigEndianRoundTrip(n, 2);
  }
}
