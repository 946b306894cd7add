/** The Xauthority credential file: a sequence of records, each a
    big-endian 16-bit family followed by four fields, each a big-endian
    16-bit length and that many bytes (the layout libXau's `XauReadAuth`
    reads). The file is given as its bytes. */
module Auth {
  import opened Results
  import opened ByteOrder
  import opened Utils
  import opened Sequences

  /** One record of the file. */
  datatype XAuthEntry = XAuthEntry(
    family: uint16,
    address: seq<uint8>,
    displayNumber: seq<uint8>,
    authorizationProtocolName: seq<uint8>,
    authorizationProtocolData: seq<uint8>)

  /** The error `read_exact` gives when the data ends too early. */
  datatype IoError = UnexpectedEof

  // ---------------------------------------------------------------------
  // The record layout, as functions on the bytes not yet read.

  /** A 2-byte big-endian value (the family or a length prefix). */
  function DecodeLength(s: seq<uint8>): (r: Result<Decoded<uint16>, IoError>)
    ensures r.Err? <==> |s| < 2
    ensures r.Ok? ==> s == BigEndianBytes(r.value.value, 2) + r.value.rest
  {
    if |s| < 2 then
      Err(UnexpectedEof)
    else
      BigEndianBytesOfValue(s[..2]);
      Pow256Widths();
      assert s == s[..2] + s[2..];
      Ok(Decoded(BigEndianValue(s[..2]), s[2..]))
  }

  /** A length prefix followed by exactly that many bytes. */
  function DecodeField(s: seq<uint8>): (r: Result<Decoded<seq<uint8>>, IoError>)
    ensures r.Ok? ==> s == EncodeField(r.value.value) + r.value.rest && |r.value.value| < 0x1_0000
  {
    var len :- DecodeLength(s);
    if |len.rest| < len.value then
      Err(UnexpectedEof)
    else
      var field := len.rest[..len.value];
      assert len.rest == field + len.rest[len.value..];
      Ok(Decoded(field, len.rest[len.value..]))
  }

  /** One complete record: family, address, display number, authorization
      protocol name and data, in that order. */
  function DecodeEntry(s: seq<uint8>): (r: Result<Decoded<XAuthEntry>, IoError>)
    ensures r.Ok? ==> Encodable(r.value.value) && s == EncodeEntry(r.value.value) + r.value.rest
  {
    var family :- DecodeLength(s);
    var address :- DecodeField(family.rest);
    var display :- DecodeField(address.rest);
    var name :- DecodeField(display.rest);
    var data :- DecodeField(name.rest);
    var entry := XAuthEntry(family.value, address.value, display.value, name.value, data.value);
    EntryLayout(s, entry, family.rest, address.rest, display.rest, name.rest, data.rest);
    Ok(Decoded(entry, data.rest))
  }

  /** The records of a file: every complete record from the start, in
      order, up to the first one that cannot be read completely. */
  function DecodeEntries(s: seq<uint8>): (r: seq<XAuthEntry>)
    ensures EncodeEntries(r) <= s
    ensures forall i :: 0 <= i < |r| ==> Encodable(r[i])
    decreases |s|
  {
    match DecodeEntry(s)
    case Err(_) => []
    case Ok(d) =>
      var tail := DecodeEntries(d.rest);
      assert ([d.value] + tail)[1..] == tail;
      [d.value] + tail
  }

  // ---------------------------------------------------------------------
  // The encoding the parser reads.

  /** A field whose length fits the 16-bit prefix. */
  predicate Encodable(e: XAuthEntry) {
    && |e.address| < 0x1_0000
    && |e.displayNumber| < 0x1_0000
    && |e.authorizationProtocolName| < 0x1_0000
    && |e.authorizationProtocolData| < 0x1_0000
  }

  function EncodeField(f: seq<uint8>): seq<uint8> {
    BigEndianBytes(|f|, 2) + f
  }

  function EncodeEntry(e: XAuthEntry): (r: seq<uint8>)
    ensures |r| >= 10
  {
    BigEndianBytes(e.family, 2) + EncodeField(e.address) + EncodeField(e.displayNumber)
      + EncodeField(e.authorizationProtocolName) + EncodeField(e.authorizationProtocolData)
  }

  function EncodeEntries(es: seq<XAuthEntry>): seq<uint8> {
    if es == [] then [] else EncodeEntry(es[0]) + EncodeEntries(es[1..])
  }

  // ---------------------------------------------------------------------
  // Properties of the layout.

  /** Gluing the five pieces of a record back together. */
  lemma EntryLayout(s: seq<uint8>, e: XAuthEntry, s1: seq<uint8>, s2: seq<uint8>,
                    s3: seq<uint8>, s4: seq<uint8>, s5: seq<uint8>)
    requires s == BigEndianBytes(e.family, 2) + s1
    requires s1 == EncodeField(e.address) + s2
    requires s2 == EncodeField(e.displayNumber) + s3
    requires s3 == EncodeField(e.authorizationProtocolName) + s4
    requires s4 == EncodeField(e.authorizationProtocolData) + s5
    ensures s == EncodeEntry(e) + s5
  {
    var p1 := BigEndianBytes(e.family, 2);
    var p2 := p1 + EncodeField(e.address);
    var p3 := p2 + EncodeField(e.displayNumber);
    var p4 := p3 + EncodeField(e.authorizationProtocolName);
    var p5 := p4 + EncodeField(e.authorizationProtocolData);
    assert s == p2 + s2;
    assert s == p3 + s3;
    assert s == p4 + s4;
    assert s == p5 + s5;
  }

  lemma DecodeLengthRoundTrip(n: uint16, rest: seq<uint8>)
    ensures DecodeLength(BigEndianBytes(n, 2) + rest) == Ok(Decoded(n, rest))
  {
    var s := BigEndianBytes(n, 2) + rest;
    assert s[..2] == BigEndianBytes(n, 2) && s[2..] == rest;
    BigEndianRoundTrip(n, 2);
  }

  lemma DecodeFieldRoundTrip(f: seq<uint8>, rest: seq<uint8>)
    requires |f| < 0x1_0000
    ensures DecodeField(EncodeField(f) + rest) == Ok(Decoded(f, rest))
  {
    assert EncodeField(f) + rest == BigEndianBytes(|f|, 2) + (f + rest);
    DecodeLengthRoundTrip(|f|, f + rest);
    assert (f + rest)[..|f|] == f && (f + rest)[|f|..] == rest;
  }

  /** Decoding an encoded record gives it back with exactly the bytes
      that followed it. */
  lemma DecodeEntryRoundTrip(e: XAuthEntry, rest: seq<uint8>)
    requires Encodable(e)
    ensures DecodeEntry(EncodeEntry(e) + rest) == Ok(Decoded(e, rest))
  {
    var s4 := EncodeField(e.authorizationProtocolData) + rest;
    var s3 := EncodeField(e.authorizationProtocolName) + s4;
    var s2 := EncodeField(e.displayNumber) + s3;
    var s1 := EncodeField(e.address) + s2;
    assert EncodeEntry(e) + rest == BigEndianBytes(e.family, 2) + s1;
    DecodeLengthRoundTrip(e.family, s1);
    DecodeFieldRoundTrip(e.address, s2);
    DecodeFieldRoundTrip(e.displayNumber, s3);
    DecodeFieldRoundTrip(e.authorizationProtocolName, s4);
    DecodeFieldRoundTrip(e.authorizationProtocolData, rest);
  }

  /** Bytes appended after a decodable record do not change the record. */
  lemma DecodeEntryExtends(s: seq<uint8>, x: seq<uint8>, e: XAuthEntry, rest: seq<uint8>)
    requires DecodeEntry(s) == Ok(Decoded(e, rest))
    ensures DecodeEntry(s + x) == Ok(Decoded(e, rest + x))
  {
    AppendAssociative(EncodeEntry(e), rest, x);
    DecodeEntryRoundTrip(e, rest + x);
  }

  /** A record cut short anywhere cannot be decoded. */
  lemma TruncatedEntryFails(e: XAuthEntry, k: nat)
    requires Encodable(e) && k < |EncodeEntry(e)|
    ensures DecodeEntry(EncodeEntry(e)[..k]).Err?
  {
    var full := EncodeEntry(e);
    var p, q := full[..k], full[k..];
    TakeDrop(full, k);
    assert full + [] == p + q;
    if DecodeEntry(p).Ok? {
      var d := DecodeEntry(p).value;
      DecodeEntryExtends(p, q, d.value, d.rest);
      DecodeEntryRoundTrip(e, []);
      assert false;
    }
  }

  /** Encoded records followed by bytes that do not start a complete record
      decode to exactly those records, in order. */
  lemma {:induction false} DecodeEntriesRoundTrip(es: seq<XAuthEntry>, tail: seq<uint8>)
    requires forall i :: 0 <= i < |es| ==> Encodable(es[i])
    requires DecodeEntry(tail).Err?
    ensures DecodeEntries(EncodeEntries(es) + tail) == es
  {
    if es != [] {
      var rest := EncodeEntries(es[1..]) + tail;
      assert EncodeEntries(es) + tail == EncodeEntry(es[0]) + rest;
      DecodeEntryRoundTrip(es[0], rest);
      DecodeEntriesRoundTrip(es[1..], tail);
    } else {
      assert EncodeEntries(es) + tail == tail;
    }
  }

  /** K complete records followed by a truncated one yield exactly the K
      records; the partial trailing bytes are dropped without an error. */
  lemma CompleteRecordsThenTruncated(es: seq<XAuthEntry>, e: XAuthEntry, k: nat)
    requires forall i :: 0 <= i < |es| ==> Encodable(es[i])
    requires Encodable(e) && k < |EncodeEntry(e)|
    ensures DecodeEntries(EncodeEntries(es) + EncodeEntry(e)[..k]) == es
  {
    TruncatedEntryFails(e, k);
    DecodeEntriesRoundTrip(es, EncodeEntry(e)[..k]);
  }

  /** A file of exactly K complete records yields K entries; an empty file
      yields none. */
  lemma CompleteRecords(es: seq<XAuthEntry>)
    requires forall i :: 0 <= i < |es| ==> Encodable(es[i])
    ensures DecodeEntries(EncodeEntries(es)) == es
    ensures DecodeEntries([]) == []
  {
    assert EncodeEntries(es) + [] == EncodeEntries(es);
    DecodeEntriesRoundTrip(es, []);
  }

  /** One more record read off the front of the file. */
  lemma DecodeEntriesStep(s: seq<uint8>, e: XAuthEntry, rest: seq<uint8>, prior: seq<XAuthEntry>)
    requires DecodeEntry(s) == Ok(Decoded(e, rest))
    ensures prior + DecodeEntries(s) == prior + [e] + DecodeEntries(rest)
  {
    assert DecodeEntries(s) == [e] + DecodeEntries(rest);
  }

  // ---------------------------------------------------------------------
  // The parser as the source runs it: a reader whose cursor advances.

  /** `BufReader` over the file's bytes. */
  class Reader {
    const data: seq<uint8>
    var pos: nat

    ghost predicate Valid()
      reads this
    {
      pos <= |data|
    }

    /** The bytes not read yet. */
    function Unread(): seq<uint8>
      reads this
      requires Valid()
    {
      data[pos..]
    }

    constructor (data: seq<uint8>)
      ensures Valid() && this.data == data && Unread() == data
    {
      this.data := data;
      pos := 0;
    }

    /** `read_exact`: the next `n` bytes, or `UnexpectedEof` when fewer
        remain, in which case what remained has been consumed. */
    method ReadExact(n: nat) returns (r: Result<seq<uint8>, IoError>)
      requires Valid()
      modifies this
      ensures Valid()
      ensures r.Ok? <==> n <= |old(Unread())|
      ensures r.Ok? ==> r.value == old(Unread())[..n] && Unread() == old(Unread())[n..]
      ensures r.Err? ==> r.error == UnexpectedEof && Unread() == []
    {
      if pos + n <= |data| {
        r := Ok(data[pos..pos + n]);
        pos := pos + n;
      } else {
        pos := |data|;
        r := Err(UnexpectedEof);
      }
    }
  }

  /** `read_preceding_bytes`: a 2-byte big-endian value. */
  method ReadPrecedingBytes(reader: Reader) returns (r: Result<uint16, IoError>)
    requires reader.Valid()
    modifies reader
    ensures reader.Valid()
    ensures var d := DecodeLength(old(reader.Unread()));
            && r.Ok? == d.Ok?
            && (r.Ok? ==> r.value == d.value.value && reader.Unread() == d.value.rest)
            && (r.Err? ==> reader.Unread() == [])
  {
    ghost var before := reader.Unread();
    var buf := reader.ReadExact(2);
    match buf
    case Err(e) =>
      r := Err(e);
    case Ok(b) =>
      assert b == before[..2];
      Pow256Widths();
      r := Ok(BigEndianValue(b));
  }

  /** `read_subsequent_bytes`: a length prefix, then that many bytes. */
  method ReadSubsequentBytes(reader: Reader) returns (r: Result<seq<uint8>, IoError>)
    requires reader.Valid()
    modifies reader
    ensures reader.Valid()
    ensures var d := DecodeField(old(reader.Unread()));
            && r.Ok? == d.Ok?
            && (r.Ok? ==> r.value == d.value.value && reader.Unread() == d.value.rest)
            && (r.Err? ==> reader.Unread() == [])
  {
    var len := ReadPrecedingBytes(reader);
    if len.Err? {
      return Err(len.error);
    }
    r := reader.ReadExact(len.value);
  }

  /** `read_xauth_entry`: one complete record. */
  method ReadXAuthEntry(reader: Reader) returns (r: Result<XAuthEntry, IoError>)
    requires reader.Valid()
    modifies reader
    ensures reader.Valid()
    ensures var d := DecodeEntry(old(reader.Unread()));
            && r.Ok? == d.Ok?
            && (r.Ok? ==> r.value == d.value.value && reader.Unread() == d.value.rest)
            && (r.Err? ==> reader.Unread() == [])
  {
    var family := ReadPrecedingBytes(reader);
    if family.Err? { return Err(family.error); }
    var address := ReadSubsequentBytes(reader);
    if address.Err? { return Err(address.error); }
    var display := ReadSubsequentBytes(reader);
    if display.Err? { return Err(display.error); }
    var name := ReadSubsequentBytes(reader);
    if name.Err? { return Err(name.error); }
    var data := ReadSubsequentBytes(reader);
    if data.Err? { return Err(data.error); }
    r := Ok(XAuthEntry(family.value, address.value, display.value, name.value, data.value));
  }

  /** `XAuthEntry::parse` on the file's bytes: reads records until one
      cannot be read completely and returns those read, in order. */
  method Parse(data: seq<uint8>) returns (entries: seq<XAuthEntry>)
    ensures entries == DecodeEntries(data)
  {
    var reader := new Reader(data);
    entries := [];
    while true
      invariant reader.Valid() && reader.data == data
      invariant entries + DecodeEntries(reader.Unread()) == DecodeEntries(data)
      decreases |reader.Unread()|
    {
      ghost var before := reader.Unread();
      var record := ReadXAuthEntry(reader);
      if record.Err? {
        break;
      }
      DecodeEntriesStep(before, record.value, reader.Unread(), entries);
      entries := entries + [record.value];
    }
  }
}
