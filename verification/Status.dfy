/** Status values of the gateway; messages are left out, codes are kept. */
module Status {
  datatype ErrorCode = InvalidArgument | ParseError | ValidationError | NotFound | StorageError | UnsupportedVersion | Internal

  datatype Status = Success | Failure(code: ErrorCode)

  datatype StatusOr<+T> = Ok(value: T) | Err(code: ErrorCode)
}
