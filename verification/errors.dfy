/**
 * The `boost::system::error_code` values the protocol produces. Codes of the
 * generic category carry their POSIX errno value (Linux numbering); the text
 * of `error_code::message()` is left opaque and supplied by the caller where
 * it is written to the wire.
 */
module Errors {

  datatype ErrorCode =
    | NoError                  // default-constructed error_code
    | InvalidArgument          // errc::invalid_argument
    | IoError                  // errc::io_error
    | NoStreamResources        // errc::no_stream_resources
    | IllegalByteSequence      // errc::illegal_byte_sequence
    | AlreadyConnected         // errc::already_connected
    | NotConnected             // errc::not_connected
    | SocketError(code: int)   // whatever the socket layer reports

  /** `error_code::value()`: the integer written after `result:`. */
  function Value(e: ErrorCode): int
  {
    match e
    case NoError => 0
    case InvalidArgument => 22
    case IoError => 5
    case NoStreamResources => 63
    case IllegalByteSequence => 84
    case AlreadyConnected => 106
    case NotConnected => 107
    case SocketError(c) => c
  }

  /** Conversion to bool: an error_code is "set" when its value is non-zero. */
  predicate Failed(e: ErrorCode)
  {
    Value(e) != 0
  }
}
