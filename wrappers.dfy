/** Shared value types: nullable values, the outcome of a call that may throw, and bytes. */
module Wrappers {

  /** A C# nullable reference: `None` stands for `null`. */
  datatype Option<+T> = None | Some(value: T)

  /** The exceptions the modelled code can raise or let through. */
  datatype Exception =
    | FormatError                     // Convert.FromBase64String on malformed input
    | JsonError                       // JSON text that does not parse or does not bind
    | KeyNotFound                     // JsonElement.GetProperty on a missing member
    | InvalidOperation                // JsonElement access on the wrong value kind
    | ArgumentOutOfRange              // DateTimeOffset.FromUnixTimeSeconds out of range
    | TokenError(content: string)     // "Token error: <content>" from the code exchange
    | HttpRequestError(status: int)   // EnsureSuccessStatusCode on a non-2xx status
    | NetworkFailure                  // a failed HTTP round trip (connection, timeout)
    | TaskCanceled                    // cancellation, including a dismissed authenticator

  /** How a call ends: it returns a value or it throws. */
  datatype Outcome<+T> = Ok(value: T) | Throws(error: Exception)

  /** An 8-bit unsigned value, as in `byte[]`. */
  type Byte = b: int | 0 <= b < 256

  /** A 32-byte buffer: the output of SHA-256 and the PKCE random source. */
  type Bytes32 = s: seq<Byte> | |s| == 32
    witness seq(32, i => 0)
}
