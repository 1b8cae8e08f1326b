/** Shared value types of the model. */
module Prelude {

  datatype Option<+T> = None | Some(value: T)

  datatype Result<+T, +E> = Ok(value: T) | Err(error: E)

  /** An octet of a stored file. */
  type byte = b: int | 0 <= b < 256

  type bytes = seq<byte>

  /** The length a line stays below, its newline included. */
  const MAX_LINE := 262144

  /** The most operations one acquisition or one query names. */
  const MAX_OPERATIONS := 256

  function Max(a: nat, b: nat): nat { if a < b then b else a }
}
