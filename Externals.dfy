/** The libraries the explorer calls but does not define, taken as
    uninterpreted functions passed in as values: the Base58Check codec
    (`base58`), the address helpers and the proof-of-work arithmetic of
    `util`. Nothing is assumed about them except, where a lemma says so, that
    base58 decoding undoes base58 encoding. */
module Externals {
  import opened Prelude

  /** `base58.b58encode(bytes)` and `base58.b58decode(text, None)`; decoding
      fails (the library raises) on a character outside the alphabet. */
  datatype Base58 = Base58(encode: seq<byte> -> string, decode: string -> Option<seq<byte>>)

  /** The round-trip law of the Base58 codec. */
  ghost predicate DecodesWhatItEncodes(b58: Base58)
  {
    forall bytes :: b58.decode(b58.encode(bytes)) == Some(bytes)
  }

  /** `util.decode_address(text)`, which splits a decoded address into its
      version bytes and its 160-bit hash, and `util.hash_to_address(version, hash)`,
      which builds the Base58Check text of an address. */
  datatype AddressCodec = AddressCodec(
    decodeAddress: string -> (seq<byte>, seq<byte>),
    hashToAddress: (seq<byte>, seq<byte>) -> string)

  /** `util.calculate_target(nBits)`, `util.target_to_difficulty(target)`,
      `util.target_to_work(target)` and `util.work_to_target(work)`. */
  datatype Difficulty = Difficulty(
    calculateTarget: int -> int,
    targetToDifficulty: int -> real,
    targetToWork: int -> int,
    workToTarget: int -> int)
}
