/** The two error taxonomies of the handshake, the conversion between
    them and the message each one displays. */
module Errors {

  /** Why a connection could not be set up. */
  datatype ConnectionError =
    | InvalidSocketPath
    | ConnectionRefused
    | ConnectionNotEstablished
    | FurtherAuthenticationRequired
    | InvalidResponseFromServer

  /** Why a byte sequence could not be decoded. */
  datatype ParseError = OutOfBound | NotEnoughData | OverFlow | Failed | InvalidLength

  /** `From<ParseError> for ConnectionError`: every decoding failure is
      reported as a connection that was not established, whatever it was. */
  function FromParseError(e: ParseError): (c: ConnectionError)
    ensures c == ConnectionNotEstablished
  {
    ConnectionNotEstablished
  }

  /** The conversion forgets which decoding failure happened and never
      yields a refusal, an authentication request, an invalid response or
      an invalid socket path. */
  lemma FromParseErrorNeverProtocolError(e: ParseError)
    ensures FromParseError(e) !in {ConnectionRefused, FurtherAuthenticationRequired,
                                   InvalidResponseFromServer, InvalidSocketPath}
    ensures forall e' :: FromParseError(e') == FromParseError(e)
  {
  }

  const ConnectPrefix: string := "Failed to connect:"
  const ParsePrefix: string := "Failed to parse"

  /** `Display for ConnectionError`. */
  function ConnectionErrorMessage(e: ConnectionError): (m: string)
    ensures ConnectPrefix <= m
  {
    match e
    case InvalidSocketPath => ConnectPrefix + " The socket path is invalid"
    case ConnectionNotEstablished => ConnectPrefix + " Connection to the server is not established"
    case ConnectionRefused => ConnectPrefix + " Connection is refused by the server"
    case FurtherAuthenticationRequired => ConnectPrefix + " Further authentication is required"
    case InvalidResponseFromServer => ConnectPrefix + " Invalid response from server on connection setup"
  }

  /** `Display for ParseError`. */
  function ParseErrorMessage(e: ParseError): (m: string)
    ensures ParsePrefix <= m
  {
    match e
    case OutOfBound => ParsePrefix + ": The provided range is out of bound"
    case NotEnoughData => ParsePrefix + ": Not enough data to parse: Out of bound"
    case OverFlow => ParsePrefix + ": data length overflow"
    case Failed => ParsePrefix
    case InvalidLength => ParsePrefix + ": Invalid data length"
  }

  /** Distinct connection errors display distinct messages. */
  lemma ConnectionErrorMessagesDistinct(a: ConnectionError, b: ConnectionError)
    requires a != b
    ensures ConnectionErrorMessage(a) != ConnectionErrorMessage(b)
  {
  }

  /** Distinct parse errors display distinct messages. */
  lemma ParseErrorMessagesDistinct(a: ParseError, b: ParseError)
    requires a != b
    ensures ParseErrorMessage(a) != ParseErrorMessage(b)
  {
  }
}
