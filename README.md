# X11 connection handshake, client side (mousetrap)

A Dafny model of how the mousetrap X11 client library opens a connection.
It covers each step of the handshake:

- working out where the server lives from a display name such as `:1`;
- reading the client's credentials from the Xauthority file;
- building and serializing the Connection Setup request of the X Window
  System protocol, version 11;
- classifying the server's reply, and decoding an accepted reply up to and
  including the vendor text.

The native-order integer decoders, the byte-order writers and the error
types with their messages are modelled as well.

The model has one module per source file, plus one of shared sequence facts:

| module | file | what it holds |
|---|---|---|
| `Results` | `results.dfy` | `Option`, `Result` (usable with `:-`) and `Outcome`. `Outcome` is a value or `Panicked`, for the places where the Rust code panics. |
| `ByteOrder` | `byteorder.dfy` | Little- and big-endian values and encodings, and the host's byte order as a parameter. Also the byte-order marker and the two in-place `write_u16` writers over an `array`. |
| `Errors` | `errors.dfy` | `ConnectionError`, `ParseError`, the `From` conversion and the `Display` messages. |
| `Utils` | `utils.dfy` | `Deserialize` for u8/u16/u32/u64, `deserialize_into` and `deserialize_into_string`. |
| `Sequences` | `sequences.dfy` | Small slicing and concatenation facts shared by the other modules. It models no source file. |
| `Auth` | `auth.dfy` | The Xauthority record layout as pure functions, with its encoder and round-trip lemmas. The imperative parser is a `Reader` class whose cursor advances, plus a `while` loop proved equal to the pure decoder. |
| `Connection` | `connection.dfy` | `parse_conf` (a method that updates its `XConf` field by field), `ConnSetupRequest::new`, and `serialize` (a method that grows its payload). `serialize` is proved against a layout function and a decoder of that layout. |
| `Setup` | `setup.dfy` | The server reply `ConnSetup`. `parse_into` dispatches on the status byte. `from_bytes` runs through the vendor text and is proved against a layout function in both directions. |

The host's byte order (`#[cfg(target_endian)]`) is an explicit parameter
`host: Endian`. Every statement is proved for both a little-endian and a
big-endian host.

## Model

| member | source | states |
|---|---|---|
| ByteOrder.ByteOrderMarker | src/byteorder.rs:1-4 | The marker is `'l'` exactly on a little-endian host and `'B'` exactly on a big-endian one. |
| ByteOrder.NativeRoundTrip | src/utils.rs:45-83 | Reading back the `to_ne_bytes` encoding of a value that fits the width gives that value, in either host order. |
| ByteOrder.NativeBytesOfValue | src/utils.rs:45-83 | Every byte string is the native encoding of the value it denotes, so decoding loses nothing. |
| ByteOrder.LittleEndianRoundTrip | src/byteorder.rs:17-19 | The value of the little-endian encoding of n (n below 256^width) is n. |
| ByteOrder.BigEndianRoundTrip | src/byteorder.rs:9-11 | The value of the big-endian encoding of n (n below 256^width) is n. |
| ByteOrder.LittleEndianBytesOfValue | src/byteorder.rs:17-19 | Re-encoding the little-endian value of a byte string gives the same string. |
| ByteOrder.BigEndianBytesOfValue | src/byteorder.rs:9-11 | Re-encoding the big-endian value of a byte string gives the same string. |
| ByteOrder.NativeSingleByte | src/utils.rs:45-53 | A single byte has the same encoding in both orders. |
| ByteOrder.BigEndianWriteU16 | src/byteorder.rs:9-11 | Overwrites `buf[0..2]` with the high then the low byte of n and leaves every later byte unchanged. The result reads back as n. |
| ByteOrder.LittleEndianWriteU16 | src/byteorder.rs:17-19 | Overwrites `buf[0..2]` with the low then the high byte of n and leaves every later byte unchanged. |
| ByteOrder.BigEndianU16RoundTrip | src/byteorder.rs:9-11 | The big-endian encoding of a u16 is `[n / 256, n % 256]` and reads back as n. |
| Errors.FromParseError | src/errors.rs:18-22 | Every parse error converts to `ConnectionNotEstablished`. |
| Errors.FromParseErrorNeverProtocolError | src/errors.rs:18-22 | The conversion gives the same error for every parse error. It never gives a refusal, an authentication request, an invalid response or an invalid socket path. |
| Errors.ConnectionErrorMessage | src/errors.rs:24-50 | Every connection-error message starts with "Failed to connect:". |
| Errors.ParseErrorMessage | src/errors.rs:64-87 | Every parse-error message starts with "Failed to parse". |
| Errors.ConnectionErrorMessagesDistinct | src/errors.rs:24-50 | Distinct connection errors display distinct messages. |
| Errors.ParseErrorMessagesDistinct | src/errors.rs:64-87 | Distinct parse errors display distinct messages. |
| Utils.Deserialize | src/utils.rs:45-83 | Succeeds exactly when the input is `size_of::<T>()` bytes long, and otherwise gives `OutOfBound`. The value fits the type, and its native encoding is the input. |
| Utils.DeserializeInto | src/utils.rs:9-17 | Fails with `NotEnoughData` exactly when the input is shorter than the type. Otherwise the value is that of the first `size_of::<T>()` bytes, the rest is everything after them, and the value's encoding followed by the rest is the input. |
| Utils.DeserializeIntoRoundTrip | src/utils.rs:9-17 | Decoding a value's native encoding followed by any bytes gives the value and exactly those bytes. |
| Utils.DeserializeIntoString | src/utils.rs:23-33 | Fails with `NotEnoughData` exactly when fewer than `length` bytes are given. Otherwise the text is the first `length` bytes and the text followed by the rest is the input. |
| Utils.DeserializeIntoStringPrefix | src/utils.rs:23-33 | The text depends only on the first `length` bytes. |
| Auth.DecodeLength | src/auth.rs:35-41 | Fails exactly when fewer than 2 bytes remain. Otherwise the input is the value's big-endian encoding followed by the rest. |
| Auth.DecodeField | src/auth.rs:47-54 | On success the input is the length prefix of the field, the field, then the rest. The field is shorter than 65536 bytes. |
| Auth.DecodeEntry | src/auth.rs:57-83 | On success the record is encodable and the input is its encoding followed by the rest. |
| Auth.DecodeEntries | src/auth.rs:85-88 | The records found, re-encoded, are a prefix of the file, and each of them is encodable. |
| Auth.DecodeLengthRoundTrip | src/auth.rs:35-41 | Decoding the big-endian encoding of a u16 followed by any bytes gives the u16 and those bytes. |
| Auth.DecodeFieldRoundTrip | src/auth.rs:47-54 | Decoding an encoded field (shorter than 65536 bytes) followed by any bytes gives the field and those bytes. |
| Auth.DecodeEntryRoundTrip | src/auth.rs:57-83 | Decoding an encoded record followed by any bytes gives the record and those bytes. |
| Auth.EntryLayout | src/auth.rs:57-67 | A family followed by the four length-prefixed fields, in order, is the record's encoding. |
| Auth.DecodeEntryExtends | src/auth.rs:68-83 | Bytes appended after a decodable record do not change the record read. |
| Auth.TruncatedEntryFails | src/auth.rs:68-83 | A record cut short at any point cannot be read. |
| Auth.DecodeEntriesRoundTrip | src/auth.rs:85-88 | Encoded records followed by bytes that do not hold a complete record parse to exactly those records, in order. |
| Auth.CompleteRecordsThenTruncated | src/auth.rs:85-88 | K complete records followed by a truncated one parse to exactly the K records, with no error. |
| Auth.CompleteRecords | src/auth.rs:85-88 | A file of exactly K complete records parses to those K records, and an empty file parses to none. |
| Auth.DecodeEntriesStep | src/auth.rs:85-87 | Reading one record off the front appends it to the records already read. |
| Auth.Reader.constructor | src/auth.rs:29 | A fresh reader has all the file's bytes unread. |
| Auth.Reader.ReadExact | src/auth.rs:37 | Returns the next n bytes and advances by n exactly when n bytes remain. Otherwise gives `UnexpectedEof` with nothing left unread. |
| Auth.ReadPrecedingBytes | src/auth.rs:35-41 | Returns what `DecodeLength` decodes from the unread bytes and advances past it. An error leaves nothing unread. |
| Auth.ReadSubsequentBytes | src/auth.rs:47-54 | Returns what `DecodeField` decodes from the unread bytes and advances past it. An error leaves nothing unread. |
| Auth.ReadXAuthEntry | src/auth.rs:68-83 | Returns what `DecodeEntry` decodes from the unread bytes and advances past it. An error leaves nothing unread. |
| Auth.Parse | src/auth.rs:25-89 | The entries collected by the read loop are exactly `DecodeEntries` of the file. |
| Connection.TrimLeadingColons | src/connection.rs:55 | The result is a suffix of the input. Everything removed is a colon, and the result does not start with one. |
| Connection.TrimLeadingColonsOf | src/connection.rs:55 | Any run of colons followed by text not starting with a colon trims to exactly that text. |
| Connection.ParseU8 | src/connection.rs:56 | With one leading `+` removed, the text parses exactly when what remains is one or more decimal digits denoting a value below 256, and the result is that value. |
| Connection.DecimalText | src/connection.rs:56 | The decimal text of n is non-empty, all digits, and denotes n. |
| Connection.ParseU8OfDecimal | src/connection.rs:56 | The text of n < 256 parses to n, with or without a `+`. The text of n ≥ 256 does not parse. |
| Connection.ParseConf | src/connection.rs:46-64 | The host is `127.0.0.1`. The display number is the parse of the name without its leading colons, or 0 when that fails. The port is 6000 plus the display number, so it lies in 6000..6255. The socket path is `/tmp/.X11-unix/X` followed by the trimmed text itself. |
| Connection.DisplayNameOfNumber | src/connection.rs:55-56 | Colons followed by the decimal text of n select display n. |
| Connection.ScreenSuffixKeptInSocketPath | src/connection.rs:55-62 | `:0.0` trims to `0.0`, which does not parse, so the display number is 0 and the path keeps `0.0`. |
| Connection.NewRequest | src/connection.rs:68-76 | The request carries the host's byte-order marker, version 11.0, and the entry's authorization name and data. |
| Connection.NewRequestIgnoresHostFields | src/connection.rs:68-76 | Entries differing only in family, address or display number give the same request. |
| Connection.Pad | src/connection.rs:137 | The padding is below 4 and brings the length to a multiple of 4. |
| Connection.Zeros | src/connection.rs:137 | n bytes, all zero. |
| Connection.RequestHeader | src/connection.rs:104-131 | The fixed part of the request is 12 bytes long. |
| Connection.HeaderFields | src/connection.rs:104-131 | Offset 0 holds the byte order. Offsets 2, 4, 6 and 8 hold the major version, the minor version, N and D, each as 2 native-order bytes. |
| Connection.Serialize | src/connection.rs:101-145 | Panics exactly when N or D does not fit 16 bits. Otherwise returns the layout `RequestBytes`, whose length is a multiple of 4. |
| Connection.PadAfterAligned | src/connection.rs:137-143 | Padding computed from the running length equals pad of the last field alone, because the running length was aligned. |
| Connection.DecodeRequest | src/connection.rs:101-145 | Reads the fields at their offsets. It accepts only inputs whose length is exactly 12 + N + pad(N) + D + pad(D). |
| Connection.RequestRoundTrip | src/connection.rs:101-145 | Every request whose N and D fit 16 bits is read back unchanged from its serialization. The name is at offset 12, the data at 12 + N + pad(N), and nothing follows the data's padding. |
| Connection.RequestLength | src/connection.rs:137-143 | The request is 12 + N + pad(N) + D + pad(D) bytes long, always a multiple of 4. |
| Connection.MagicCookieRequestLength | src/connection.rs:68-76 | An 18-byte name and a 16-byte cookie give a 48-byte request. |
| Setup.VersionBytes | src/connection.rs:175-179 | The versions and the additional-data length take 6 bytes before the tail. |
| Setup.ServerBytes | src/connection.rs:180-183 | The release number, the resource-id base and mask, and the motion-buffer size take 16 bytes before the tail. |
| Setup.LimitBytes | src/connection.rs:184-185 | The vendor length and the maximum request length take 4 bytes before the tail. |
| Setup.FormatBytes | src/connection.rs:186-193 | The eight one-byte fields take 8 bytes before the tail. |
| Setup.FixedBytes | src/connection.rs:175-193 | The fixed fields take 34 bytes before the tail. |
| Setup.SetupBytes | src/connection.rs:171-197 | A reply through the vendor text is 40 bytes plus the vendor plus what follows. |
| Setup.VersionFields | src/connection.rs:175-179 | Fails with `NotEnoughData` exactly when fewer than 6 bytes are given. Otherwise the input is the fields' layout followed by the rest, and no other field changes. |
| Setup.ServerFields | src/connection.rs:180-183 | Fails with `NotEnoughData` exactly when fewer than 16 bytes are given. Otherwise the input is the fields' layout followed by the rest, and no other field changes. |
| Setup.LimitFields | src/connection.rs:184-185 | Fails with `NotEnoughData` exactly when fewer than 4 bytes are given. Otherwise the input is the fields' layout followed by the rest, and no other field changes. |
| Setup.FormatFields | src/connection.rs:186-193 | Fails with `NotEnoughData` exactly when fewer than 8 bytes are given. Otherwise the input is the eight bytes followed by the rest, and no other field changes. |
| Setup.FixedFields | src/connection.rs:175-193 | Fails with `NotEnoughData` exactly when fewer than 34 bytes are given. Otherwise it keeps the status byte, leaves the vendor empty and consumes exactly 34 bytes. |
| Setup.FixedFieldsLayout | src/connection.rs:175-193 | The input of a successful fixed-field read is `FixedBytes` of the fields read, followed by the rest. |
| Setup.VersionFieldsRoundTrip | src/connection.rs:175-179 | Reading the versions' layout gives back the versions and the tail. |
| Setup.ServerFieldsRoundTrip | src/connection.rs:180-183 | Reading the server fields' layout gives back those fields and the tail. |
| Setup.LimitFieldsRoundTrip | src/connection.rs:184-185 | Reading the limits' layout gives back the limits and the tail. |
| Setup.ByteRoundTrip | src/connection.rs:186-193 | The one-byte decoder reads a byte back in either host order. |
| Setup.FormatFieldsRoundTrip | src/connection.rs:186-193 | Reading the eight bytes gives back the eight fields and the tail. |
| Setup.FixedFieldsRoundTrip | src/connection.rs:175-193 | Reading `FixedBytes` gives back every field but the vendor, and the tail. |
| Setup.FixedBytesIgnoresVendor | src/connection.rs:175-193 | The fixed layout does not depend on the vendor text. |
| Setup.VendorText | src/connection.rs:197 | Fails with `NotEnoughData` exactly when fewer than `vendorLength` bytes are given. Otherwise the vendor is stored (and has `vendorLength` bytes), nothing else changes, and vendor plus rest is the input. |
| Setup.AfterStatus | src/connection.rs:175-197 | 0-33 bytes give `NotEnoughData`. 34-37 bytes panic at `&rest[4..]`. A success keeps the status byte and has a vendor of the declared length. |
| Setup.AfterStatusLayout | src/connection.rs:175-197 | A successful read after the status byte sees the fixed fields, the 4 unused bytes, the vendor, and then the rest. |
| Setup.FromBytes | src/connection.rs:170-197 | It panics exactly when the input is 1 byte long (`&rest[1..]`) or 36-39 bytes long (`&rest[4..]`). Every other error is `NotEnoughData`, and inputs shorter than 36 bytes (other than 1) give it. A success needs at least 40 bytes and has the vendor length it declares. The input is then `SetupBytes` of the decoded reply, whose unused bytes are those at offsets 1 and 36-39. |
| Setup.ParseInto | src/connection.rs:149-168 | An empty reply or a status above 2 gives `InvalidResponseFromServer`. Status 0 gives `ConnectionRefused`. Status 2 gives `FurtherAuthenticationRequired`. Only status 1 can panic or succeed. A success has status 1 and at least 40 bytes, and no other error is ever returned. For status 1 it panics exactly when `from_bytes` does not succeed (the `unwrap`), and a success is the reply `from_bytes` decoded. |
| Setup.SetupBytesVendor | src/connection.rs:196-197 | In an accepted reply the vendor text occupies the `vendorLength` bytes from offset 40, and everything after them is the rest. |
| Setup.ParseIntoLayout | src/connection.rs:156-159 | An accepted input is `SetupBytes` of the returned reply, with the unused bytes at offsets 1 and 36-39, followed by the bytes after its vendor text. |
| Setup.ParseIntoAccepts | src/connection.rs:156-159 | A status-1 reply laid out from a well-formed record is accepted as exactly that record, whatever its unused bytes and trailing bytes hold. |
| Setup.FromBytesRoundTrip | src/connection.rs:170-197 | A well-formed reply is read back unchanged from its layout, whatever its unused bytes hold, and the bytes after the vendor are left over. |

## Left out

- `Stream::open`, `connect_unix_socket`, `connect_tcp`, `write`, `read` and `set_nonblocking` (src/connection.rs:207-301) are left out: they are OS socket I/O.
- `Stream::authenticate` (src/connection.rs:304-362) is left out: it is a socket write loop and a non-blocking poll with sleeps and `process::exit`. Its write loop resends the whole request on every pass rather than the unwritten remainder.
- `Connection::init` and `src/main.rs` are left out: they are environment lookup and process entry.
- `auth::open` and `get_xauth_filename` are left out: they are environment and file opening. The parser works on the file's bytes. Only end-of-data can happen there, so "any read error ends parsing" becomes "a truncated record ends parsing".
- Auth.Parse returns the entries rather than an `io::Result`, because the only error it can return comes from opening the file, which is left out.
- `ConnSetupRequest::byte_raw_slice` is left out: it reinterprets raw memory, depends on the layout and is unused.
- Everything in `from_bytes` after the vendor text (src/connection.rs:198-203) is left out. It calls `trim_by_padding` and `deserialize_into_vec`, which are not defined in src/utils.rs, and then ends in `println!` and `todo!()`. So the source never returns a decoded `ConnSetup`. The model's decoded reply stops at the vendor text, and Setup.ParseInto returns that prefix.
- `Screen`, `Depth`, `VisualType`, `BackingStore`, `ConnFailed` and `Format` are left out: no decoder exists for them. `BitOrder` is kept as its raw byte.
- `String::from_utf8_lossy` is left out: the vendor text is kept as raw bytes.
- `println!`, `eprintln!` and the `fmt::Formatter` machinery are left out. `Display` output is a plain string.
- Errors.ConnectionErrorMessage and Errors.ParseErrorMessage state only the shared prefix and that distinct errors give distinct messages. The exact text of each message appears only in their bodies.
- Host byte order is a parameter rather than a compile-time constant. In the decoders, Rust panics (slice out of range, `unwrap`) are the `Panicked` outcome rather than an error value.
- ByteOrder.BigEndianWriteU16 and ByteOrder.LittleEndianWriteU16: the panic of `buf[..2]` on a buffer shorter than 2 bytes is a precondition (`buf.Length >= 2`) rather than a `Panicked` outcome, because the writers change an array in place and return nothing.

## Notes

- The 16-byte MIT-MAGIC-COOKIE-1 example gives a 48-byte request. The name `MIT-MAGIC-COOKIE-1` is 18 bytes long, and the code's formula 12 + N + pad(N) + D + pad(D) gives 12 + 18 + 2 + 16 + 0 = 48 (Connection.MagicCookieRequestLength).
- `str::parse::<u8>` accepts a leading `+`. A lone sign, a `-` and any value above 255 are errors, which `parse_conf` turns into display 0.
