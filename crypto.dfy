/** The two cryptographic libraries the core calls, as values the operations
    receive: bcrypt's `hash`/`verify` and the JWT library's `encode`/`decode`.
    What the operations may rely on about them is stated as predicates, which
    the lemmas that need them take as hypotheses. */
module Crypto {
  import opened Schema
  import opened UserDomain

  /** What bcrypt's `verify` returns: `Ok(bool)`, or an error when the stored
      hash cannot be parsed. */
  datatype VerifyResult = Verified(matches: bool) | VerifyFailed(message: string)

  /** bcrypt at the source's cost factor: `hash(input)` and
      `verify(input, storedHash)`. */
  datatype Hasher = Hasher(hash: string -> string, verify: (string, string) -> VerifyResult)

  /** An idealised hasher: a hash verifies against its own input and
      against no other input. */
  ghost predicate Sound(h: Hasher) {
    && (forall input :: h.verify(input, h.hash(input)) == Verified(true))
    && (forall input, other :: input != other ==> h.verify(other, h.hash(input)) == Verified(false))
  }

  /** What the JWT library's `encode` returns. */
  datatype EncodeResult = Encoded(token: string) | EncodeFailed(message: string)

  /** HS256 signing of `Claims` under a secret, and the inverse that checks
      the signature and parses the claims back (`None` for a bad signature or
      a malformed token). The claim-by-claim validation is not part of
      `decode`; the operation that decodes states it. */
  datatype Signer = Signer(encode: (Claims, string) -> EncodeResult, decode: (string, string) -> Option<Claims>)

  /** A token signed under a secret decodes, under that secret, to the claims
      it was made from. */
  ghost predicate RoundTrips(s: Signer) {
    forall c, key, t :: s.encode(c, key) == Encoded(t) ==> s.decode(t, key) == Some(c)
  }

  /** The empty string is not a token (a JWT has three dot-separated parts). */
  ghost predicate RejectsEmpty(s: Signer) {
    forall key :: s.decode("", key).None?
  }
}
