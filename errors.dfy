// The error type shared by all parsers and the result/option wrappers.
// Error messages are not modelled: an error keeps its variant, the field it
// names and, for InsufficientData, the byte counts it reports.

module Errors {
  import opened Bytes

  datatype HwpError =
    | InsufficientData(field: string, expected: nat, actual: nat)
    | UnexpectedValue(field: string)
    | RecordParseError(recordType: string)
    | RecordTreeParseError
    | InvalidSignature(found: seq<byte>)
    | EncodingError

  datatype Result<T> = Ok(value: T) | Err(error: HwpError)

  datatype Option<T> = None | Some(value: T)

  // What a parser as written does: return a result, or stop with an index
  // out of bounds (a slice index past the end of the data).
  datatype Outcome<T> = Returned(result: Result<T>) | IndexOutOfBounds
}
