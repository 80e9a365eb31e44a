/** The library calls the log makes, as any functions with the shapes and the one law the log relies on. */
module Crypto {
  import opened Wrappers
  import opened Errors
  import opened ByteStrings
  import Json

  /**
   * BLAKE2b and Ed25519 stand here as arbitrary functions; no collision resistance or unforgeability is assumed.
   * `show` is Python's `str` on values that are not strings.
   */
  datatype Primitives = Primitives(
    digest: Bytes -> Bytes,
    publicOf: Bytes -> Bytes,
    signWith: (Bytes, Bytes) -> Bytes,
    accepts: (Bytes, Bytes, Bytes) -> bool,
    show: Json.Json -> string)

  /** Sizes, and that a signature verifies under the signer's public key. */
  ghost predicate Lawful(p: Primitives) {
    && (forall m: Bytes :: |p.digest(m)| == 32)
    && (forall k: Bytes | |k| == 32 :: |p.publicOf(k)| == 32)
    && (forall k: Bytes, m: Bytes | |k| == 32 :: |p.signWith(k, m)| == 64)
    && (forall k: Bytes, m: Bytes | |k| == 32 :: p.accepts(p.publicOf(k), m, p.signWith(k, m)))
  }

  type Crypto = p: Primitives | Lawful(p)
    ghost witness Primitives(_ => seq(32, _ => 0), _ => seq(32, _ => 0), (_, _) => seq(64, _ => 0),
                             (_, _, _) => true, _ => "")

  /** `str(v)`. */
  function ToStr(c: Crypto, v: Json.Json): string {
    match v case Str(s) => s case _ => c.show(v)
  }

  /** `hash_bytes(data).hex()`. */
  function HashHex(c: Crypto, data: Bytes): string {
    Hex(c.digest(data))
  }

  function Sign(c: Crypto, key: Bytes, message: Bytes): Result<Bytes, Error> {
    if |key| != 32 then Err(BadKeyLength) else Ok(c.signWith(key, message))
  }

  /** False, never an exception, on a key or signature of the wrong length. */
  predicate Verify(c: Crypto, publicKey: Bytes, message: Bytes, signature: Bytes) {
    |publicKey| == 32 && |signature| == 64 && c.accepts(publicKey, message, signature)
  }

  /** What a broken binding must exhibit: two inputs with one digest, or an input whose digest is all zeros. */
  datatype Evidence = Collision(x: Bytes, y: Bytes) | ZeroPreimage(x: Bytes)

  ghost predicate Genuine(c: Crypto, e: Evidence) {
    match e
    case Collision(x, y) => x != y && c.digest(x) == c.digest(y)
    case ZeroPreimage(x) => c.digest(x) == ZERO_HASH
  }

  lemma EqualHashes(c: Crypto, x: Bytes, y: Bytes)
    requires HashHex(c, x) == HashHex(c, y)
    ensures x == y || Genuine(c, Collision(x, y))
  {
    HexInjective(c.digest(x), c.digest(y));
  }

  lemma ZeroHash(c: Crypto, x: Bytes)
    requires HashHex(c, x) == ZERO_HASH_HEX
    ensures Genuine(c, ZeroPreimage(x))
  {
    HexInjective(c.digest(x), ZERO_HASH);
  }
}
