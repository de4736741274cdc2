/** AES-256-CTR as a stateful stream cipher over an uninterpreted keystream. */
module Ciphers {
  import opened Bytes

  const HANDSHAKE_LEN: nat := 64
  const SKIP_LEN: nat := 8
  const PREKEY_LEN: nat := 32
  const IV_LEN: nat := 16

  datatype ProtoTag = Abridged | Intermediate | PaddedIntermediate

  type KeyStream = nat -> byte

  type Digest = d: seq<byte> | |d| == 32 witness seq(32, _ => 0)

  /** The cryptographic primitives, as arbitrary functions: nothing is assumed about them. */
  datatype Suite = Suite(
    aesCtr: (seq<byte>, seq<byte>) -> KeyStream,
    sha256: seq<byte> -> Digest,
    hmac: (seq<byte>, seq<byte>) -> Digest)

  /** What applying the keystream from position `pos` turns `s` into. */
  function Crypt(ks: KeyStream, pos: nat, s: seq<byte>): (c: seq<byte>)
    ensures |c| == |s|
  {
    seq(|s|, i requires 0 <= i < |s| => Xor(s[i], ks(pos + i)))
  }

  lemma CryptTwice(ks: KeyStream, pos: nat, s: seq<byte>)
    ensures Crypt(ks, pos, Crypt(ks, pos, s)) == s
  {
    forall i | 0 <= i < |s| ensures Crypt(ks, pos, Crypt(ks, pos, s))[i] == s[i] {
      XorTwice(s[i], ks(pos + i));
    }
  }

  lemma CryptAppend(ks: KeyStream, pos: nat, a: seq<byte>, b: seq<byte>)
    ensures Crypt(ks, pos, a + b) == Crypt(ks, pos, a) + Crypt(ks, pos + |a|, b)
  {}

  lemma CryptDrop(ks: KeyStream, pos: nat, s: seq<byte>, n: nat)
    requires n <= |s|
    ensures Crypt(ks, pos, s)[n..] == Crypt(ks, pos + n, s[n..])
    ensures Crypt(ks, pos, s)[..n] == Crypt(ks, pos, s[..n])
  {}

  /** A cipher positioned somewhere in its keystream; applying it advances it. */
  class CtrCipher {
    const ks: KeyStream
    var pos: nat

    constructor (suite: Suite, key: seq<byte>, iv: seq<byte>)
      requires |key| == 32 && |iv| == 16
      ensures ks == suite.aesCtr(key, iv) && pos == 0
    {
      ks := suite.aesCtr(key, iv);
      pos := 0;
    }

    /** Apply the keystream to `data`, as the cipher crate does in place. */
    method ApplyKeystream(data: seq<byte>) returns (out: seq<byte>)
      modifies this`pos
      ensures out == Crypt(ks, old(pos), data) && pos == old(pos) + |data|
    {
      out := Crypt(ks, pos, data);
      pos := pos + |data|;
    }
  }
}
