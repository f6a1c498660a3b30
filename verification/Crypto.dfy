/** The platform's primitives, as uninterpreted functions: what they compute never matters below. */
module Crypto {
  import opened Bytes

  /** One of sha1, sha256, sha512: a digest of fixed size. */
  datatype Hash = Hash(size: nat, digest: seq<byte> -> seq<byte>) {
    ghost predicate Valid() {
      0 < size <= 64 && forall m :: |digest(m)| == size
    }
  }

  /** The low 32 bits of n, big-endian. */
  function Be32(n: nat): (r: seq<byte>)
    ensures |r| == 4
  {
    [(n / 0x100_0000 % 0x100) as byte, (n / 0x1_0000 % 0x100) as byte, (n / 0x100 % 0x100) as byte, (n % 0x100) as byte]
  }
}
