/**
 * `TOTPKey`: the shared secret. Only its raw bytes take part in the
 * derivation; the text and base32 constructors are not part of this model.
 */
module TotpKey {
  import opened Bits

  /** `init(rawValue:)` stores the bytes unchecked; they may be empty. */
  datatype Key = Key(rawValue: seq<Byte>)
}
