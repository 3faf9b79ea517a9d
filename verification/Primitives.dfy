/**
 The cryptographic primitives, as parameters.

 A `Suite` is any implementation of the authenticated cipher, the password hash
 and UTF-8 checking.  Nothing is assumed of it except where a predicate below is
 named as a hypothesis.
 */
module Primitives {
  import opened Bytes
  import opened Results

  const SALT_LENGTH: nat := 16
  const NONCE_LENGTH: nat := 12
  const TAG_SIZE: nat := 16

  const MIN_ARGON2_MEMORY_KIB: nat := 8
  const MAX_ARGON2_MEMORY_KIB: nat := 128 * 1024
  const MIN_ARGON2_ITERATIONS: nat := 1
  const MAX_ARGON2_ITERATIONS: nat := 6
  const MIN_ARGON2_PARALLELISM: nat := 1
  const MAX_ARGON2_PARALLELISM: nat := 8

  /** Argon2id cost parameters; each field is a 32-bit unsigned integer. */
  datatype KdfParams = KdfParams(memoryKib: nat, iterations: nat, parallelism: nat) {
    predicate Fits() {
      memoryKib < U32_LIMIT && iterations < U32_LIMIT && parallelism < U32_LIMIT
    }
  }

  const CURRENT_KDF: KdfParams := KdfParams(65536, 3, 4)

  datatype Suite = Suite(
    seal: (seq<byte>, seq<byte>, seq<byte>, seq<byte>) -> seq<byte>,          // key, nonce, plaintext, aad
    open: (seq<byte>, seq<byte>, seq<byte>, seq<byte>) -> Option<seq<byte>>,  // key, nonce, ciphertext, aad
    kdf: (seq<byte>, seq<byte>, KdfParams) -> Option<seq<byte>>,              // password, salt, parameters
    utf8: seq<byte> -> bool)

  /** The cost limits, checked in the program's order. */
  function ValidateKdfParams(p: KdfParams): Result<()> {
    if !(MIN_ARGON2_MEMORY_KIB <= p.memoryKib <= MAX_ARGON2_MEMORY_KIB) then Err(ResourceLimit(KdfCost))
    else if !(MIN_ARGON2_ITERATIONS <= p.iterations <= MAX_ARGON2_ITERATIONS) then Err(ResourceLimit(KdfCost))
    else if !(MIN_ARGON2_PARALLELISM <= p.parallelism <= MAX_ARGON2_PARALLELISM) then Err(ResourceLimit(KdfCost))
    else if p.memoryKib < p.parallelism * 8 then Err(InvalidFileFormat)
    else Ok(())
  }

  function DeriveKey(suite: Suite, password: seq<byte>, salt: seq<byte>, p: KdfParams): Result<seq<byte>> {
    match ValidateKdfParams(p)
    case Err(e) => Err(e)
    case Ok(_) =>
      match suite.kdf(password, salt, p)
      case None => Err(EncryptionFailed)
      case Some(key) => Ok(key)
  }

  function Decrypt(suite: Suite, key: seq<byte>, nonce: seq<byte>, ciphertext: seq<byte>, aad: seq<byte>)
    : Result<seq<byte>>
  {
    match suite.open(key, nonce, ciphertext, aad)
    case None => Err(DecryptionFailed)
    case Some(plaintext) => Ok(plaintext)
  }

  /** Sealing appends a 16-byte tag, and opening removes one (section 2.8 of RFC 8439). */
  ghost predicate Tagged(suite: Suite) {
    && (forall k, n, p, a :: |suite.seal(k, n, p, a)| == |p| + TAG_SIZE)
    && (forall k, n, c, a :: suite.open(k, n, c, a).Some? ==> |c| == |suite.open(k, n, c, a).value| + TAG_SIZE)
  }

  /** Opening a sealed text under the same key, nonce and associated data gives the text back. */
  ghost predicate Inverting(suite: Suite) {
    forall k, n, p, a :: suite.open(k, n, suite.seal(k, n, p, a), a) == Some(p)
  }

  /** A toy suite: the tag is sixteen zero bytes and every check succeeds. */
  function ToySuite(): Suite {
    Suite((k, n, p, a) => p + ZeroTag(),
          (k, n, c, a) => if |c| >= TAG_SIZE && c[|c| - TAG_SIZE..] == ZeroTag()
                          then Some(c[..|c| - TAG_SIZE]) else None,
          (w, s, p) => Some(w + s),
          n => true)
  }

  function ZeroTag(): (t: seq<byte>)
    ensures |t| == TAG_SIZE
  {
    seq(TAG_SIZE, i => 0)
  }

  /** The hypotheses on suites used for round trips can be met together. */
  lemma ToySuiteIsSound()
    ensures Tagged(ToySuite()) && Inverting(ToySuite())
  {
    forall k: seq<byte>, n: seq<byte>, p: seq<byte>, a: seq<byte>
      ensures ToySuite().open(k, n, ToySuite().seal(k, n, p, a), a) == Some(p)
    {
      var c := p + ZeroTag();
      assert c[|c| - TAG_SIZE..] == ZeroTag() && c[..|c| - TAG_SIZE] == p;
    }
  }
}
