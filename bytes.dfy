/** Shared vocabulary: bytes, and the Option/Result wrappers used for the
    tool's fatal errors. */
module Bytes {

  /** One octet of a DER buffer or of an OpenSSH blob. */
  newtype byte = x: int | 0 <= x < 256

  datatype Option<+T> = None | Some(value: T)

  /** Every fatal `sys.exit` of the extractor, as a value. */
  datatype ExtractError =
    | OidNotFound                   // no id-Ed25519 OID in the buffer
    | BitStringNotLocated           // neither search found a BIT STRING header
    | InvalidBitStringLocation      // the header's payload would start past the end
    | KeyLength(actual: nat)        // fewer than 32 key bytes follow the header

  datatype Result<+T> = Ok(value: T) | Err(error: ExtractError)

  function Min(a: int, b: int): int
  {
    if a <= b then a else b
  }
}
