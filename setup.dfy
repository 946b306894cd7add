/** The server's reply to the connection setup request (`ConnSetup`):
    dispatch on the status byte, then the fixed part of an accepted reply
    and the vendor text that follows it. */
module Setup {
  import opened Results
  import opened ByteOrder
  import opened Errors
  import opened Utils
  import opened Sequences

  /** The fields of an accepted reply that are decoded before the pixmap
      formats; the vendor text is kept as raw bytes. */
  datatype ConnSetup = ConnSetup(
    success: uint8,
    protocolMajorVersion: uint16,
    protocolMinorVersion: uint16,
    additionalDataLength: uint16,
    releaseNumber: uint32,
    resourceIdBase: uint32,
    resourceIdMask: uint32,
    motionBufferSize: uint32,
    vendorLength: uint16,
    maximumRequestLength: uint16,
    numberOfScreens: uint8,
    numberOfFormats: uint8,
    imageByteOrder: uint8,
    bitmapBitOrder: uint8,
    bitmapScanlineUnit: uint8,
    bitmapScanlinePad: uint8,
    minKeycode: uint8,
    maxKeycode: uint8,
    vendor: seq<uint8>)

  /** A reply whose vendor text is as long as its vendor-length field says. */
  predicate WellFormed(s: ConnSetup) {
    |s.vendor| == s.vendorLength
  }

  /** The protocol versions and the length of the additional data, in
      wire order, followed by `tail`. */
  function VersionBytes(host: Endian, s: ConnSetup, tail: seq<uint8>): (r: seq<uint8>)
    ensures |r| == 6 + |tail|
    ensures r[6..] == tail
  {
    ToNativeBytes(host, s.protocolMajorVersion, 2)
      + (ToNativeBytes(host, s.protocolMinorVersion, 2)
      + (ToNativeBytes(host, s.additionalDataLength, 2)
      + tail))
  }

  /** The release number, the resource-id base and mask and the motion
      buffer size, followed by `tail`. */
  function ServerBytes(host: Endian, s: ConnSetup, tail: seq<uint8>): (r: seq<uint8>)
    ensures |r| == 16 + |tail|
    ensures r[16..] == tail
  {
    ToNativeBytes(host, s.releaseNumber, 4)
      + (ToNativeBytes(host, s.resourceIdBase, 4)
      + (ToNativeBytes(host, s.resourceIdMask, 4)
      + (ToNativeBytes(host, s.motionBufferSize, 4)
      + tail)))
  }

  /** The vendor length and the maximum request length, followed by `tail`. */
  function LimitBytes(host: Endian, s: ConnSetup, tail: seq<uint8>): (r: seq<uint8>)
    ensures |r| == 4 + |tail|
    ensures r[4..] == tail
  {
    ToNativeBytes(host, s.vendorLength, 2)
      + (ToNativeBytes(host, s.maximumRequestLength, 2)
      + tail)
  }

  /** The eight one-byte fields from the number of screens to the maximum
      keycode, followed by `tail`. */
  function FormatBytes(s: ConnSetup, tail: seq<uint8>): (r: seq<uint8>)
    ensures |r| == 8 + |tail|
    ensures r[8..] == tail
  {
    [s.numberOfScreens] + ([s.numberOfFormats] + ([s.imageByteOrder] + ([s.bitmapBitOrder]
      + ([s.bitmapScanlineUnit] + ([s.bitmapScanlinePad] + ([s.minKeycode] + ([s.maxKeycode]
      + tail)))))))
  }

  /** The 34 bytes between the unused byte at offset 1 and the four unused
      bytes at offset 36, in wire order, followed by `tail`. */
  function FixedBytes(host: Endian, s: ConnSetup, tail: seq<uint8>): (r: seq<uint8>)
    ensures |r| == 34 + |tail|
    ensures r[34..] == tail
  {
    VersionBytes(host, s, ServerBytes(host, s, LimitBytes(host, s, FormatBytes(s, tail))))
  }

  /** An accepted reply as the server lays it out up to the end of the
      vendor text: the status byte, one unused byte, the fixed fields, four
      unused bytes, the vendor text, then whatever follows. */
  function SetupBytes(host: Endian, s: ConnSetup, unused: uint8, unused4: seq<uint8>, rest: seq<uint8>): (r: seq<uint8>)
    requires |unused4| == 4
    ensures |r| == 40 + |s.vendor| + |rest|
  {
    [s.success] + ([unused] + FixedBytes(host, s, unused4 + (s.vendor + rest)))
  }

  /** Reads the versions and the additional-data length into `acc`. */
  function VersionFields(host: Endian, acc: ConnSetup, s: seq<uint8>): (r: Result<Decoded<ConnSetup>, ParseError>)
    ensures r.Err? <==> |s| < 6
    ensures r.Err? ==> r.error == NotEnoughData
    ensures r.Ok? ==> |r.value.rest| == |s| - 6
    ensures r.Ok? ==> s == VersionBytes(host, r.value.value, r.value.rest)
    ensures r.Ok? ==> r.value.value == acc.(protocolMajorVersion := r.value.value.protocolMajorVersion,
                                           protocolMinorVersion := r.value.value.protocolMinorVersion,
                                           additionalDataLength := r.value.value.additionalDataLength)
  {
    Pow256Widths();
    var major :- DeserializeInto(host, U16, s);
    var minor :- DeserializeInto(host, U16, major.rest);
    var ln :- DeserializeInto(host, U16, minor.rest);
    Ok(Decoded(acc.(protocolMajorVersion := major.value, protocolMinorVersion := minor.value,
                    additionalDataLength := ln.value), ln.rest))
  }

  /** Reads the release number, resource-id base and mask and motion
      buffer size into `acc`. */
  function ServerFields(host: Endian, acc: ConnSetup, s: seq<uint8>): (r: Result<Decoded<ConnSetup>, ParseError>)
    ensures r.Err? <==> |s| < 16
    ensures r.Err? ==> r.error == NotEnoughData
    ensures r.Ok? ==> |r.value.rest| == |s| - 16
    ensures r.Ok? ==> s == ServerBytes(host, r.value.value, r.value.rest)
    ensures r.Ok? ==> r.value.value == acc.(releaseNumber := r.value.value.releaseNumber,
                                           resourceIdBase := r.value.value.resourceIdBase,
                                           resourceIdMask := r.value.value.resourceIdMask,
                                           motionBufferSize := r.value.value.motionBufferSize)
  {
    Pow256Widths();
    var release :- DeserializeInto(host, U32, s);
    var base :- DeserializeInto(host, U32, release.rest);
    var mask :- DeserializeInto(host, U32, base.rest);
    var motion :- DeserializeInto(host, U32, mask.rest);
    Ok(Decoded(acc.(releaseNumber := release.value, resourceIdBase := base.value,
                    resourceIdMask := mask.value, motionBufferSize := motion.value), motion.rest))
  }

  /** Reads the vendor length and the maximum request length into `acc`. */
  function LimitFields(host: Endian, acc: ConnSetup, s: seq<uint8>): (r: Result<Decoded<ConnSetup>, ParseError>)
    ensures r.Err? <==> |s| < 4
    ensures r.Err? ==> r.error == NotEnoughData
    ensures r.Ok? ==> |r.value.rest| == |s| - 4
    ensures r.Ok? ==> s == LimitBytes(host, r.value.value, r.value.rest)
    ensures r.Ok? ==> r.value.value == acc.(vendorLength := r.value.value.vendorLength,
                                           maximumRequestLength := r.value.value.maximumRequestLength)
  {
    Pow256Widths();
    var vendorLength :- DeserializeInto(host, U16, s);
    var maxRequest :- DeserializeInto(host, U16, vendorLength.rest);
    Ok(Decoded(acc.(vendorLength := vendorLength.value, maximumRequestLength := maxRequest.value), maxRequest.rest))
  }

  /** Reads the eight one-byte fields into `acc`, each through the same
      one-byte decoder. */
  function FormatFields(host: Endian, acc: ConnSetup, s: seq<uint8>): (r: Result<Decoded<ConnSetup>, ParseError>)
    ensures r.Err? <==> |s| < 8
    ensures r.Err? ==> r.error == NotEnoughData
    ensures r.Ok? ==> |r.value.rest| == |s| - 8
    ensures r.Ok? ==> s == FormatBytes(r.value.value, r.value.rest)
    ensures r.Ok? ==> r.value.value == acc.(numberOfScreens := r.value.value.numberOfScreens,
                                           numberOfFormats := r.value.value.numberOfFormats,
                                           imageByteOrder := r.value.value.imageByteOrder,
                                           bitmapBitOrder := r.value.value.bitmapBitOrder,
                                           bitmapScanlineUnit := r.value.value.bitmapScanlineUnit,
                                           bitmapScanlinePad := r.value.value.bitmapScanlinePad,
                                           minKeycode := r.value.value.minKeycode,
                                           maxKeycode := r.value.value.maxKeycode)
  {
    Pow256Widths();
    var screens :- DeserializeInto(host, U8, s);
    var formats :- DeserializeInto(host, U8, screens.rest);
    var imageOrder :- DeserializeInto(host, U8, formats.rest);
    var bitOrder :- DeserializeInto(host, U8, imageOrder.rest);
    var scanlineUnit :- DeserializeInto(host, U8, bitOrder.rest);
    var scanlinePad :- DeserializeInto(host, U8, scanlineUnit.rest);
    var minKeycode :- DeserializeInto(host, U8, scanlinePad.rest);
    var maxKeycode :- DeserializeInto(host, U8, minKeycode.rest);
    Ok(Decoded(acc.(numberOfScreens := screens.value, numberOfFormats := formats.value,
                    imageByteOrder := imageOrder.value, bitmapBitOrder := bitOrder.value,
                    bitmapScanlineUnit := scanlineUnit.value, bitmapScanlinePad := scanlinePad.value,
                    minKeycode := minKeycode.value, maxKeycode := maxKeycode.value), maxKeycode.rest))
  }

  /** The reply with only its status byte known. */
  function Blank(success: uint8): (r: ConnSetup)
    ensures r.success == success && r.vendor == []
  {
    ConnSetup(success, 0, 0, 0, 0, 0, 0, 0, 0, 0, 0, 0, 0, 0, 0, 0, 0, 0, [])
  }

  /** The fixed fields read in wire order, as the successive `rest`
      bindings of `from_bytes` do; the vendor is filled in later. */
  function FixedFields(host: Endian, success: uint8, s: seq<uint8>): (r: Result<Decoded<ConnSetup>, ParseError>)
    ensures r.Err? <==> |s| < 34
    ensures r.Err? ==> r.error == NotEnoughData
    ensures r.Ok? ==> r.value.value.success == success && r.value.value.vendor == []
    ensures r.Ok? ==> |r.value.rest| == |s| - 34
  {
    var versions :- VersionFields(host, Blank(success), s);
    var server :- ServerFields(host, versions.value, versions.rest);
    var limits :- LimitFields(host, server.value, server.rest);
    var formats :- FormatFields(host, limits.value, limits.rest);
    Ok(formats)
  }

  /** The fixed fields are laid out as `FixedBytes` describes. */
  lemma FixedFieldsLayout(host: Endian, success: uint8, s: seq<uint8>)
    requires FixedFields(host, success, s).Ok?
    ensures var d := FixedFields(host, success, s).value;
            s == FixedBytes(host, d.value, d.rest)
  {
    var versions := VersionFields(host, Blank(success), s).value;
    var server := ServerFields(host, versions.value, versions.rest).value;
    var limits := LimitFields(host, server.value, server.rest).value;
    var formats := FormatFields(host, limits.value, limits.rest).value;
    assert FixedFields(host, success, s).value == formats;
  }

  /** A field-group decoder reads back what the matching layout function
      wrote, whatever the fields of `s` outside the group hold. */
  lemma VersionFieldsRoundTrip(host: Endian, acc: ConnSetup, s: ConnSetup, tail: seq<uint8>)
    ensures VersionFields(host, acc, VersionBytes(host, s, tail))
            == Ok(Decoded(acc.(protocolMajorVersion := s.protocolMajorVersion,
                               protocolMinorVersion := s.protocolMinorVersion,
                               additionalDataLength := s.additionalDataLength), tail))
  {
    Pow256Widths();
    var t1 := ToNativeBytes(host, s.protocolMinorVersion, 2) + (ToNativeBytes(host, s.additionalDataLength, 2) + tail);
    DeserializeIntoRoundTrip(host, U16, s.protocolMajorVersion, t1);
    DeserializeIntoRoundTrip(host, U16, s.protocolMinorVersion, ToNativeBytes(host, s.additionalDataLength, 2) + tail);
    DeserializeIntoRoundTrip(host, U16, s.additionalDataLength, tail);
  }

  lemma ServerFieldsRoundTrip(host: Endian, acc: ConnSetup, s: ConnSetup, tail: seq<uint8>)
    ensures ServerFields(host, acc, ServerBytes(host, s, tail))
            == Ok(Decoded(acc.(releaseNumber := s.releaseNumber, resourceIdBase := s.resourceIdBase,
                               resourceIdMask := s.resourceIdMask, motionBufferSize := s.motionBufferSize), tail))
  {
    Pow256Widths();
    var t3 := ToNativeBytes(host, s.motionBufferSize, 4) + tail;
    var t2 := ToNativeBytes(host, s.resourceIdMask, 4) + t3;
    var t1 := ToNativeBytes(host, s.resourceIdBase, 4) + t2;
    DeserializeIntoRoundTrip(host, U32, s.releaseNumber, t1);
    DeserializeIntoRoundTrip(host, U32, s.resourceIdBase, t2);
    DeserializeIntoRoundTrip(host, U32, s.resourceIdMask, t3);
    DeserializeIntoRoundTrip(host, U32, s.motionBufferSize, tail);
  }

  lemma LimitFieldsRoundTrip(host: Endian, acc: ConnSetup, s: ConnSetup, tail: seq<uint8>)
    ensures LimitFields(host, acc, LimitBytes(host, s, tail))
            == Ok(Decoded(acc.(vendorLength := s.vendorLength, maximumRequestLength := s.maximumRequestLength), tail))
  {
    Pow256Widths();
    DeserializeIntoRoundTrip(host, U16, s.vendorLength, ToNativeBytes(host, s.maximumRequestLength, 2) + tail);
    DeserializeIntoRoundTrip(host, U16, s.maximumRequestLength, tail);
  }

  /** The one-byte decoder reads a byte back whatever the host order. */
  lemma ByteRoundTrip(host: Endian, b: uint8, tail: seq<uint8>)
    ensures DeserializeInto(host, U8, [b] + tail) == Ok(Decoded(b, tail))
  {
    Pow256Widths();
    NativeSingleByte(host, b);
    DeserializeIntoRoundTrip(host, U8, b, tail);
  }

  lemma FormatFieldsRoundTrip(host: Endian, acc: ConnSetup, s: ConnSetup, tail: seq<uint8>)
    ensures FormatFields(host, acc, FormatBytes(s, tail))
            == Ok(Decoded(acc.(numberOfScreens := s.numberOfScreens, numberOfFormats := s.numberOfFormats,
                               imageByteOrder := s.imageByteOrder, bitmapBitOrder := s.bitmapBitOrder,
                               bitmapScanlineUnit := s.bitmapScanlineUnit, bitmapScanlinePad := s.bitmapScanlinePad,
                               minKeycode := s.minKeycode, maxKeycode := s.maxKeycode), tail))
  {
    var t7 := [s.maxKeycode] + tail;
    var t6 := [s.minKeycode] + t7;
    var t5 := [s.bitmapScanlinePad] + t6;
    var t4 := [s.bitmapScanlineUnit] + t5;
    var t3 := [s.bitmapBitOrder] + t4;
    var t2 := [s.imageByteOrder] + t3;
    var t1 := [s.numberOfFormats] + t2;
    ByteRoundTrip(host, s.numberOfScreens, t1);
    ByteRoundTrip(host, s.numberOfFormats, t2);
    ByteRoundTrip(host, s.imageByteOrder, t3);
    ByteRoundTrip(host, s.bitmapBitOrder, t4);
    ByteRoundTrip(host, s.bitmapScanlineUnit, t5);
    ByteRoundTrip(host, s.bitmapScanlinePad, t6);
    ByteRoundTrip(host, s.minKeycode, t7);
    ByteRoundTrip(host, s.maxKeycode, tail);
  }

  /** The 34 fixed bytes are read back into every field but the vendor. */
  lemma FixedFieldsRoundTrip(host: Endian, s: ConnSetup, tail: seq<uint8>)
    ensures FixedFields(host, s.success, FixedBytes(host, s, tail)) == Ok(Decoded(s.(vendor := []), tail))
  {
    var t3 := FormatBytes(s, tail);
    var t2 := LimitBytes(host, s, t3);
    var t1 := ServerBytes(host, s, t2);
    var versions := Blank(s.success).(protocolMajorVersion := s.protocolMajorVersion,
                                      protocolMinorVersion := s.protocolMinorVersion,
                                      additionalDataLength := s.additionalDataLength);
    VersionFieldsRoundTrip(host, Blank(s.success), s, t1);
    var server := versions.(releaseNumber := s.releaseNumber, resourceIdBase := s.resourceIdBase,
                            resourceIdMask := s.resourceIdMask, motionBufferSize := s.motionBufferSize);
    ServerFieldsRoundTrip(host, versions, s, t2);
    var limits := server.(vendorLength := s.vendorLength, maximumRequestLength := s.maximumRequestLength);
    LimitFieldsRoundTrip(host, server, s, t3);
    FormatFieldsRoundTrip(host, limits, s, tail);
  }

  /** The layout of the fixed fields does not depend on the vendor text. */
  lemma FixedBytesIgnoresVendor(host: Endian, s: ConnSetup, vendor: seq<uint8>, tail: seq<uint8>)
    ensures FixedBytes(host, s.(vendor := vendor), tail) == FixedBytes(host, s, tail)
  {
  }

  /** `deserialize_into_string` for the vendor text, stored into the
      reply decoded so far. */
  function VendorText(fixed: ConnSetup, s: seq<uint8>): (r: Result<Decoded<ConnSetup>, ParseError>)
    ensures r.Err? <==> |s| < fixed.vendorLength
    ensures r.Err? ==> r.error == NotEnoughData
    ensures r.Ok? ==> r.value.value == fixed.(vendor := r.value.value.vendor)
    ensures r.Ok? ==> WellFormed(r.value.value) && s == r.value.value.vendor + r.value.rest
  {
    match DeserializeIntoString(s, fixed.vendorLength)
    case Err(e) => Err(e)
    case Ok(vendor) => Ok(Decoded(fixed.(vendor := vendor.value), vendor.rest))
  }

  /** The reply after its unused byte at offset 1: the fixed fields, the
      four unused bytes (`&rest[4..]` panics when fewer remain) and the
      vendor text. */
  function AfterStatus(host: Endian, success: uint8, s: seq<uint8>): (r: Outcome<Result<Decoded<ConnSetup>, ParseError>>)
    ensures r.Panicked? <==> 34 <= |s| < 38
    ensures r.Returned? && r.value.Err? ==> r.value.error == NotEnoughData
    ensures |s| < 34 ==> r == Returned(Err(NotEnoughData))
    ensures r.Returned? && r.value.Ok? ==>
              |s| >= 38 && WellFormed(r.value.value.value) && r.value.value.value.success == success
  {
    match FixedFields(host, success, s)
    case Err(e) => Returned(Err(e))
    case Ok(fixed) =>
      if |fixed.rest| < 4 then Panicked
      else Returned(VendorText(fixed.value, fixed.rest[4..]))
  }

  /** After the status bytes, an accepted reply is the fixed fields, four
      unused bytes, the vendor text and whatever follows. */
  lemma AfterStatusLayout(host: Endian, success: uint8, s: seq<uint8>)
    requires AfterStatus(host, success, s).Returned? && AfterStatus(host, success, s).value.Ok?
    ensures var d := AfterStatus(host, success, s).value.value;
            s == FixedBytes(host, d.value, s[34..38] + (d.value.vendor + d.rest))
  {
    var fixed := FixedFields(host, success, s).value;
    var unused4, after := fixed.rest[..4], fixed.rest[4..];
    var d := VendorText(fixed.value, after).value;
    assert AfterStatus(host, success, s).value.value == d;
    FixedFieldsLayout(host, success, s);
    TakeDrop(fixed.rest, 4);
    FixedBytesIgnoresVendor(host, fixed.value, d.value.vendor, fixed.rest);
    DropThenTake(s, 34, 38);
  }

  /** The status byte and the unused byte in front of the rest of a reply. */
  lemma ReplyPrefix(bytes: seq<uint8>)
    requires |bytes| >= 40
    ensures bytes[1..][1..] == bytes[2..]
    ensures bytes == [bytes[0]] + ([bytes[1]] + bytes[2..])
    ensures bytes[2..][34..38] == bytes[36..40]
  {
  }

  /** `ConnSetup::from_bytes` up to the vendor text: the status byte, then
      the unused byte (`&rest[1..]` panics when nothing follows the status
      byte). An empty input is `NotEnoughData`, a lone status byte panics,
      2 to 35 bytes are `NotEnoughData`, 36 to 39 bytes panic; an accepted
      reply is the layout of `SetupBytes` around the decoded fields. */
  function FromBytes(host: Endian, bytes: seq<uint8>): (r: Outcome<Result<Decoded<ConnSetup>, ParseError>>)
    ensures r.Panicked? <==> |bytes| == 1 || 36 <= |bytes| < 40
    ensures r.Returned? && r.value.Err? ==> r.value.error == NotEnoughData
    ensures |bytes| < 36 && |bytes| != 1 ==> r == Returned(Err(NotEnoughData))
    ensures r.Returned? && r.value.Ok? ==>
              var d := r.value.value;
              && |bytes| >= 40 && WellFormed(d.value) && d.value.success == bytes[0]
              && bytes == SetupBytes(host, d.value, bytes[1], bytes[36..40], d.rest)
  {
    match DeserializeInto(host, U8, bytes)
    case Err(e) => Returned(Err(e))
    case Ok(status) =>
      if |status.rest| < 1 then Panicked
      else
        var r := AfterStatus(host, status.value, status.rest[1..]);
        if r.Returned? && r.value.Ok? then
          AfterStatusLayout(host, status.value, status.rest[1..]);
          ReplyPrefix(bytes);
          r
        else
          r
  }

  /** `ConnSetup::parse_into`: the status byte decides; an accepted reply
      is decoded and `unwrap`ped, so a decoding error or a slice panic in
      it is a panic here too. */
  function ParseInto(host: Endian, bytes: seq<uint8>): (r: Outcome<Result<ConnSetup, ConnectionError>>)
    ensures r == Returned(Err(InvalidResponseFromServer)) <==> bytes == [] || bytes[0] > 2
    ensures r == Returned(Err(ConnectionRefused)) <==> bytes != [] && bytes[0] == 0
    ensures r == Returned(Err(FurtherAuthenticationRequired)) <==> bytes != [] && bytes[0] == 2
    ensures r.Panicked? ==> bytes != [] && bytes[0] == 1
    ensures r.Returned? && r.value.Ok? ==>
              && bytes[0] == 1 && |bytes| >= 40 && WellFormed(r.value.value) && r.value.value.success == 1
    ensures r.Returned? && r.value.Err? ==>
              r.value.error in {ConnectionRefused, FurtherAuthenticationRequired, InvalidResponseFromServer}
    ensures bytes != [] && bytes[0] == 1 ==>
              (r.Panicked? <==> !(FromBytes(host, bytes).Returned? && FromBytes(host, bytes).value.Ok?))
    ensures r.Returned? && r.value.Ok? ==>
              && FromBytes(host, bytes).Returned? && FromBytes(host, bytes).value.Ok?
              && r.value.value == FromBytes(host, bytes).value.value.value
  {
    if bytes == [] then Returned(Err(InvalidResponseFromServer))
    else if bytes[0] == 0 then Returned(Err(ConnectionRefused))
    else if bytes[0] == 1 then
      var f := FromBytes(host, bytes);
      if f.Returned? && f.value.Ok? then
        Returned(Ok(f.value.value.value))
      else
        Panicked
    else if bytes[0] == 2 then Returned(Err(FurtherAuthenticationRequired))
    else Returned(Err(InvalidResponseFromServer))
  }

  /** In an accepted reply the vendor text occupies the `vendorLength`
      bytes from offset 40, and everything after them is the rest. */
  lemma SetupBytesVendor(host: Endian, s: ConnSetup, unused: uint8, unused4: seq<uint8>, rest: seq<uint8>)
    requires |unused4| == 4
    ensures SetupBytes(host, s, unused, unused4, rest)[40..40 + |s.vendor|] == s.vendor
    ensures SetupBytes(host, s, unused, unused4, rest)[40 + |s.vendor|..] == rest
  {
    var tail := unused4 + (s.vendor + rest);
    var b := SetupBytes(host, s, unused, unused4, rest);
    assert b[2..] == FixedBytes(host, s, tail);
    assert b[36..] == tail;
    assert b[40..] == s.vendor + rest;
    AppendSlices(s.vendor, rest);
    assert b[40 + |s.vendor|..] == b[40..][|s.vendor|..];
  }

  /** Every well-formed reply is read back unchanged from its layout,
      whatever the unused bytes hold, and what follows the vendor text is
      left for the next decoder. */
  lemma FromBytesRoundTrip(host: Endian, s: ConnSetup, unused: uint8, unused4: seq<uint8>, rest: seq<uint8>)
    requires WellFormed(s) && |unused4| == 4
    ensures FromBytes(host, SetupBytes(host, s, unused, unused4, rest)) == Returned(Ok(Decoded(s, rest)))
  {
    var tail := unused4 + (s.vendor + rest);
    var b := SetupBytes(host, s, unused, unused4, rest);
    ByteRoundTrip(host, s.success, [unused] + FixedBytes(host, s, tail));
    FixedFieldsRoundTrip(host, s, tail);
    FixedBytesIgnoresVendor(host, s, [], tail);
    AppendSlices(unused4, s.vendor + rest);
    assert VendorText(s.(vendor := []), (s.vendor + rest)) == Ok(Decoded(s, rest));
  }

  /** An input `parse_into` accepts is the layout of the record it returns,
      followed by whatever comes after the vendor text. */
  lemma ParseIntoLayout(host: Endian, bytes: seq<uint8>)
    requires ParseInto(host, bytes).Returned? && ParseInto(host, bytes).value.Ok?
    ensures var s := ParseInto(host, bytes).value.value;
            && |bytes| >= 40 + |s.vendor|
            && bytes == SetupBytes(host, s, bytes[1], bytes[36..40], bytes[40 + |s.vendor|..])
  {
    var d := FromBytes(host, bytes).value.value;
    SetupBytesVendor(host, d.value, bytes[1], bytes[36..40], d.rest);
  }

  /** A successful reply laid out from a well-formed record is accepted by
      `parse_into` as exactly that record. */
  lemma ParseIntoAccepts(host: Endian, s: ConnSetup, unused: uint8, unused4: seq<uint8>, rest: seq<uint8>)
    requires s.success == 1 && WellFormed(s) && |unused4| == 4
    ensures ParseInto(host, SetupBytes(host, s, unused, unused4, rest)) == Returned(Ok(s))
  {
    FromBytesRoundTrip(host, s, unused, unused4, rest);
  }
}
