/** The cryptographic primitives, as arbitrary functions: nothing is assumed about the
    digest, and of signatures only that an honest signer's signatures verify. */
module Crypto {
  import opened Base

  datatype Crypto = Crypto(sha256: string -> Bytes, utf8: string -> Bytes)

  datatype Signer = Signer(keyId: string, sign: Bytes -> Bytes)

  /** `verify(key_id, message, signature)`; None stands for a raised exception. */
  datatype Verifier = Verifier(verify: (Option<string>, Bytes, Bytes) -> Option<bool>)

  /** The verifier knows the signer: whatever it signs is accepted under its key id. */
  ghost predicate Honest(signer: Signer, verifier: Verifier) {
    forall m: Bytes :: verifier.verify(Some(signer.keyId), m, signer.sign(m)) == Some(true)
  }

  function Sha256Hex(c: Crypto, text: string): string {
    ToHex(c.sha256(text))
  }

  /** Two different texts with one digest. */
  predicate IsCollision(c: Crypto, x: string, y: string) {
    x != y && c.sha256(x) == c.sha256(y)
  }
}
