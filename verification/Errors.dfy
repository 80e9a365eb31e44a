/** The exceptions the modelled code raises. */
module Errors {
  datatype Error =
    | Canonicalization      // a NaN or an infinity met by `dumps`
    | JsonDecode            // `json.loads` refused the text
    | BadKeys               // unexpected or missing keys, or an unknown status
    | NotADict              // `.keys()` on something that is not a dict
    | Mistyped              // a field whose JSON type is not the schema's
    | BadHex                // `bytes.fromhex` refused the text
    | NotUtf8               // bytes that do not decode
    | BadKeyLength          // a private key that is not 32 bytes
    | ReadOnly              // no private key
    | NegativeSeq
    | SeqOutOfRange
  {
    /** The errors `except ValueError` catches around one parsed line. */
    predicate SkippedByScan() {
      JsonDecode? || BadKeys?
    }
  }
}
