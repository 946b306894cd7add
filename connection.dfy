/** The Connection Setup exchange of the X Window System protocol,
    version 11 (chapter 8 "Connection Setup", encoded as in Appendix B
    "Protocol Encoding"): where to connect for a display name, and the
    request a client sends. */
module Connection {
  import opened Results
  import opened ByteOrder
  import opened Errors
  import opened Utils
  import opened Sequences
  import Auth

  // =====================================================================
  // Display name -> where to connect (`parse_conf`).

  /** `XConf`: the display number and the two places a server is looked for. */
  datatype XConf = XConf(displayNumber: uint8, host: string, port: uint16, socketPath: string)

  const LocalHost: string := "127.0.0.1"
  const BasePort: uint16 := 6000
  const SocketPathPrefix: string := "/tmp/.X11-unix/X"

  ghost predicate AllColons(p: string) {
    forall i :: 0 <= i < |p| ==> p[i] == ':'
  }

  /** `trim_start_matches(":")`: the text after all leading colons. */
  function TrimLeadingColons(s: string): (r: string)
    ensures |r| <= |s| && r == s[|s| - |r|..]
    ensures AllColons(s[..|s| - |r|])
    ensures r == [] || r[0] != ':'
  {
    if s != [] && s[0] == ':' then
      var r := TrimLeadingColons(s[1..]);
      assert s[1..][..|s| - 1 - |r|] == s[1..|s| - |r|];
      r
    else
      s
  }

  /** Colons followed by text that does not start with one: exactly that
      text is left. */
  lemma {:induction false} TrimLeadingColonsOf(p: string, r: string)
    requires AllColons(p) && (r == [] || r[0] != ':')
    ensures TrimLeadingColons(p + r) == r
  {
    if p != [] {
      assert (p + r)[1..] == p[1..] + r;
      TrimLeadingColonsOf(p[1..], r);
    } else {
      assert p + r == r;
    }
  }

  predicate IsDigit(c: char) {
    '0' <= c <= '9'
  }

  predicate AllDigits(s: string) {
    forall i :: 0 <= i < |s| ==> IsDigit(s[i])
  }

  /** The number a string of decimal digits denotes. */
  function DecimalValue(ds: string): nat
    requires AllDigits(ds)
  {
    if ds == [] then 0 else 10 * DecimalValue(ds[..|ds| - 1]) + (ds[|ds| - 1] as int - '0' as int)
  }

  /** `str::parse::<u8>`: an optional '+', then one or more decimal digits
      denoting a value below 256; anything else is an error. */
  function ParseU8(s: string): (r: Option<uint8>)
    ensures var ds := if |s| > 0 && s[0] == '+' then s[1..] else s;
            r.Some? <==> |ds| > 0 && AllDigits(ds) && DecimalValue(ds) < 0x100
    ensures var ds := if |s| > 0 && s[0] == '+' then s[1..] else s;
            r.Some? ==> AllDigits(ds) && r.value == DecimalValue(ds)
  {
    if |s| == 0 then
      None
    else if |s| == 1 && (s[0] == '+' || s[0] == '-') then
      None
    else
      var digits := if s[0] == '+' then s[1..] else s;
      if AllDigits(digits) && DecimalValue(digits) < 0x100 then Some(DecimalValue(digits)) else None
  }

  /** The shortest decimal text of `n`. */
  function DecimalText(n: nat): (r: string)
    ensures |r| > 0 && AllDigits(r) && r[0] != '+' && r[0] != ':'
    ensures DecimalValue(r) == n
  {
    var last := ['0' + (n % 10) as char];
    if n < 10 then
      last
    else
      var r := DecimalText(n / 10) + last;
      assert r[..|r| - 1] == DecimalText(n / 10);
      r
  }

  /** The decimal text of a number below 256 parses to it, with or without
      a '+'; the text of a larger number does not parse. */
  lemma ParseU8OfDecimal(n: nat)
    ensures n < 0x100 ==> ParseU8(DecimalText(n)) == Some(n) && ParseU8("+" + DecimalText(n)) == Some(n)
    ensures n >= 0x100 ==> ParseU8(DecimalText(n)) == None
  {
    var t := DecimalText(n);
    assert ("+" + t)[1..] == t;
  }

  /** `parse_conf`: the leading colons are dropped, the rest is read as a
      display number (0 when it is not a number below 256), the TCP port is
      6000 plus that number and the socket path ends with the text itself. */
  method ParseConf(displayName: string) returns (conf: XConf)
    ensures conf.host == LocalHost
    ensures var text := TrimLeadingColons(displayName);
            && conf.displayNumber == ParseU8(text).UnwrapOr(0)
            && conf.socketPath == SocketPathPrefix + text
    ensures conf.port == BasePort + conf.displayNumber && 6000 <= conf.port <= 6255
  {
    conf := XConf(0, LocalHost, BasePort, SocketPathPrefix);
    var displayNumber := TrimLeadingColons(displayName);
    conf := conf.(displayNumber := ParseU8(displayNumber).UnwrapOr(0));
    conf := conf.(port := conf.port + conf.displayNumber);
    conf := conf.(socketPath := conf.socketPath + displayNumber);
  }

  /** A display name of colons and the decimal number n < 256 selects
      display n on port 6000 + n. */
  lemma DisplayNameOfNumber(colons: string, n: uint8)
    requires AllColons(colons)
    ensures TrimLeadingColons(colons + DecimalText(n)) == DecimalText(n)
    ensures ParseU8(TrimLeadingColons(colons + DecimalText(n))) == Some(n)
  {
    TrimLeadingColonsOf(colons, DecimalText(n));
    ParseU8OfDecimal(n);
  }

  /** A screen suffix is not understood: ":0.0" selects display 0, and the
      socket path keeps the text "0.0" after its prefix. */
  lemma ScreenSuffixKeptInSocketPath()
    ensures TrimLeadingColons(":0.0") == "0.0"
    ensures ParseU8("0.0") == None
  {
    TrimLeadingColonsOf(":", "0.0");
    assert ":" + "0.0" == ":0.0";
    assert !IsDigit("0.0"[1]);
  }

  // =====================================================================
  // The Connection Setup request (`ConnSetupRequest`).

  const ProtocolMajorVersion: uint16 := 11
  const ProtocolMinorVersion: uint16 := 0

  datatype ConnSetupRequest = ConnSetupRequest(
    byteOrder: uint8,
    protocolMajorVersion: uint16,
    protocolMinorVersion: uint16,
    authorizationProtocolName: seq<uint8>,
    authorizationProtocolData: seq<uint8>)

  /** `ConnSetupRequest::new`: the host's byte-order marker, protocol
      version 11.0 and the entry's authorization name and data; the entry's
      family, address and display number are not sent. */
  function NewRequest(host: Endian, entry: Auth.XAuthEntry): (r: ConnSetupRequest)
    ensures r.byteOrder == ByteOrderMarker(host)
    ensures r.protocolMajorVersion == 11 && r.protocolMinorVersion == 0
    ensures r.authorizationProtocolName == entry.authorizationProtocolName
    ensures r.authorizationProtocolData == entry.authorizationProtocolData
  {
    ConnSetupRequest(ByteOrderMarker(host), ProtocolMajorVersion, ProtocolMinorVersion,
                     entry.authorizationProtocolName, entry.authorizationProtocolData)
  }

  /** Entries that differ only in family, address or display number give
      the same request. */
  lemma NewRequestIgnoresHostFields(host: Endian, a: Auth.XAuthEntry, b: Auth.XAuthEntry)
    requires a.authorizationProtocolName == b.authorizationProtocolName
    requires a.authorizationProtocolData == b.authorizationProtocolData
    ensures NewRequest(host, a) == NewRequest(host, b)
  {
  }

  /** pad(E): the number of bytes that brings E up to a multiple of 4. */
  function Pad(e: nat): (p: nat)
    ensures p < 4 && (e + p) % 4 == 0
  {
    (4 - e % 4) % 4
  }

  function Zeros(n: nat): (r: seq<uint8>)
    ensures |r| == n && forall i :: 0 <= i < n ==> r[i] == 0
  {
    seq(n, _ => 0)
  }

  /** Both lengths fit the 16-bit length fields. */
  predicate Serializable(req: ConnSetupRequest) {
    |req.authorizationProtocolName| < 0x1_0000 && |req.authorizationProtocolData| < 0x1_0000
  }

  /** The 12-byte fixed part of the request: byte order, an unused byte,
      the major and minor versions, the name and data lengths and two unused
      bytes, each 16-bit field in the host's order. */
  function RequestHeader(host: Endian, req: ConnSetupRequest): (r: seq<uint8>)
    ensures |r| == 12
  {
    [req.byteOrder] + [0]
      + ToNativeBytes(host, req.protocolMajorVersion, 2)
      + ToNativeBytes(host, req.protocolMinorVersion, 2)
      + ToNativeBytes(host, |req.authorizationProtocolName|, 2)
      + ToNativeBytes(host, |req.authorizationProtocolData|, 2)
      + [0, 0]
  }

  /** The request on the wire: the fixed part, then the name and the data,
      each padded with zeros to a 4-byte boundary. */
  function RequestBytes(host: Endian, req: ConnSetupRequest): (r: seq<uint8>)
    requires Serializable(req)
  {
    var n, d := |req.authorizationProtocolName|, |req.authorizationProtocolData|;
    RequestHeader(host, req)
      + (req.authorizationProtocolName + (Zeros(Pad(n)) + (req.authorizationProtocolData + Zeros(Pad(d)))))
  }

  lemma ZerosPrefix(k: nat, n: nat)
    requires n <= k
    ensures Zeros(k)[..n] == Zeros(n)
  {
  }

  /** Padding computed from a running total that is already a multiple of
      4 equals the padding of the last field alone. */
  lemma PadAfterAligned(m: nat, e: nat)
    requires m % 4 == 0
    ensures (4 - (m + e) % 4) % 4 == Pad(e)
  {
    assert (m + e) % 4 == e % 4;
  }

  /** `ConnSetupRequest::serialize`: the payload grows field by field; each
      padding is computed from the length written so far. A name or data
      length that does not fit 16 bits makes `u16::try_from(..).unwrap()`
      panic. */
  method Serialize(host: Endian, req: ConnSetupRequest) returns (r: Outcome<seq<uint8>>)
    ensures r.Panicked? <==> !Serializable(req)
    ensures r.Returned? ==> Serializable(req) && r.value == RequestBytes(host, req)
    ensures r.Returned? ==> |r.value| % 4 == 0
  {
    var name, data := req.authorizationProtocolName, req.authorizationProtocolData;
    var payload := [];
    payload := payload + [req.byteOrder];
    payload := payload + [0];
    payload := payload + ToNativeBytes(host, req.protocolMajorVersion, 2);
    payload := payload + ToNativeBytes(host, req.protocolMinorVersion, 2);
    if |name| >= 0x1_0000 {
      return Panicked;
    }
    payload := payload + ToNativeBytes(host, |name|, 2);
    if |data| >= 0x1_0000 {
      return Panicked;
    }
    payload := payload + ToNativeBytes(host, |data|, 2);
    payload := payload + [0, 0];
    ghost var header := payload;
    assert header == RequestHeader(host, req);
    payload := payload + name;
    var namePad := (4 - |payload| % 4) % 4;
    PadAfterAligned(12, |name|);
    ZerosPrefix(3, namePad);
    payload := payload + Zeros(3)[..namePad];
    ghost var aligned := payload;
    AlignedSum(0, 12, |name| + namePad);
    payload := payload + data;
    var dataPad := (4 - |payload| % 4) % 4;
    PadAfterAligned(|aligned|, |data|);
    ZerosPrefix(3, dataPad);
    payload := payload + Zeros(3)[..dataPad];
    AlignedSum(0, |aligned|, |data| + dataPad);
    AppendAssociative(header + name + Zeros(namePad), data, Zeros(dataPad));
    AppendAssociative(header + name, Zeros(namePad), data + Zeros(dataPad));
    AppendAssociative(header, name, Zeros(namePad) + (data + Zeros(dataPad)));
    r := Returned(payload);
  }

  /** The request read back field by field at its documented offsets. */
  function DecodeRequest(host: Endian, b: seq<uint8>): (r: Option<ConnSetupRequest>)
  {
    if |b| < 12 then
      None
    else
      var header, body := b[..12], b[12..];
      var n, d := FromNativeBytes(host, header[6..8]), FromNativeBytes(host, header[8..10]);
      if |body| != n + Pad(n) + d + Pad(d) then
        None
      else
        Pow256Widths();
        var afterName := body[n + Pad(n)..];
        Some(ConnSetupRequest(header[0], FromNativeBytes(host, header[2..4]), FromNativeBytes(host, header[4..6]),
                              body[..n], afterName[..d]))
  }

  lemma HeaderFields(host: Endian, req: ConnSetupRequest)
    ensures var h := RequestHeader(host, req);
            && h[0] == req.byteOrder
            && h[2..4] == ToNativeBytes(host, req.protocolMajorVersion, 2)
            && h[4..6] == ToNativeBytes(host, req.protocolMinorVersion, 2)
            && h[6..8] == ToNativeBytes(host, |req.authorizationProtocolName|, 2)
            && h[8..10] == ToNativeBytes(host, |req.authorizationProtocolData|, 2)
  {
  }

  /** Every serializable request is read back unchanged from its bytes:
      byte order at 0, versions at 2 and 4, lengths at 6 and 8, the name at
      12, the data at 12 + N + pad(N), and nothing after the data's padding. */
  lemma RequestRoundTrip(host: Endian, req: ConnSetupRequest)
    requires Serializable(req)
    ensures DecodeRequest(host, RequestBytes(host, req)) == Some(req)
  {
    var name, data := req.authorizationProtocolName, req.authorizationProtocolData;
    var n, d := |name|, |data|;
    var h := RequestHeader(host, req);
    var tail := data + Zeros(Pad(d));
    var body := name + (Zeros(Pad(n)) + tail);
    var b := RequestBytes(host, req);
    AppendSlices(h, body);
    HeaderFields(host, req);
    Pow256Widths();
    NativeRoundTrip(host, req.protocolMajorVersion, 2);
    NativeRoundTrip(host, req.protocolMinorVersion, 2);
    NativeRoundTrip(host, n, 2);
    NativeRoundTrip(host, d, 2);
    AppendSlices(name, Zeros(Pad(n)) + tail);
    AppendSlices(name + Zeros(Pad(n)), tail);
    AppendAssociative(name, Zeros(Pad(n)), tail);
    AppendSlices(data, Zeros(Pad(d)));
  }

  /** The request is a whole number of 4-byte units:
      12 + N + pad(N) + D + pad(D) bytes. */
  lemma RequestLength(host: Endian, req: ConnSetupRequest)
    requires Serializable(req)
    ensures var n, d := |req.authorizationProtocolName|, |req.authorizationProtocolData|;
            |RequestBytes(host, req)| == 12 + n + Pad(n) + d + Pad(d)
    ensures |RequestBytes(host, req)| % 4 == 0
  {
    var n, d := |req.authorizationProtocolName|, |req.authorizationProtocolData|;
    AlignedSum(12, n + Pad(n), d + Pad(d));
  }

  lemma AlignedSum(a: nat, b: nat, c: nat)
    requires a % 4 == 0 && b % 4 == 0 && c % 4 == 0
    ensures (a + b + c) % 4 == 0
  {
    assert a + b + c == 4 * (a / 4 + b / 4 + c / 4);
  }

  /** With an 18-byte authorization name ("MIT-MAGIC-COOKIE-1") and a
      16-byte cookie the request is 48 bytes long. */
  lemma MagicCookieRequestLength(host: Endian, entry: Auth.XAuthEntry)
    requires |entry.authorizationProtocolName| == 18 && |entry.authorizationProtocolData| == 16
    ensures |RequestBytes(host, NewRequest(host, entry))| == 48
  {
  }
}
