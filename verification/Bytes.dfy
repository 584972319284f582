/** Raw byte strings: account ids, hashes and SCALE payloads. */
module Bytes {

  newtype byte = x: int | 0 <= x < 256

  type AccountId = seq<byte>

  type Hash = seq<byte>
}
