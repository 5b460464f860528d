/** The `x-api-key` request guard (src/deletion_token.rs). */
module DeletionToken {
  import Text
  import Tokens
  import opened Http

  /** The byte length an API key must have. */
  const KeyBytes: nat := 16

  /** `is_valid`: a key is valid exactly when its UTF-8 encoding is 16 bytes
      long. Characters are not inspected, so a valid key has between 4 and 16
      characters, and an ASCII key is valid exactly when it has 16. */
  predicate IsValid(key: string): (b: bool)
    ensures b ==> 4 <= |key| <= KeyBytes
    ensures Text.IsAscii(key) ==> (b <==> |key| == KeyBytes)
  {
    Text.Utf8LengthAscii(key);
    Text.Utf8Length(key) == KeyBytes
  }

  datatype DeletionTokenError = Missing | Invalid | BadCount

  /** The guard's outcome: the accepted header value, or a status and an error. */
  datatype Outcome = Success(key: string) | Failure(status: Status, error: DeletionTokenError)

  /** `from_request`, given every value of the `x-api-key` header in the
      order they were sent. */
  function FromRequest(keys: seq<string>): (o: Outcome)
    ensures o == Failure(BadRequest, Missing) <==> |keys| == 0
    ensures o.Success? <==> |keys| == 1 && IsValid(keys[0])
    ensures o.Success? ==> o.key == keys[0]
    ensures o == Failure(BadRequest, Invalid) <==> |keys| == 1 && !IsValid(keys[0])
    ensures o == Failure(BadRequest, BadCount) <==> |keys| >= 2
    ensures o.Failure? ==> o.status == BadRequest
  {
    if |keys| == 0 then Failure(BadRequest, Missing)
    else if |keys| == 1 && IsValid(keys[0]) then Success(keys[0])
    else if |keys| == 1 then Failure(BadRequest, Invalid)
    else Failure(BadRequest, BadCount)
  }

  /** Every generated deletion token passes `is_valid`, and no public token
      does: the two roles are told apart by byte length. */
  lemma GeneratedTokensClassified(draws: seq<nat>)
    requires |draws| >= Tokens.DrawsPerPair
    ensures IsValid(Tokens.GenerateTokenPair(draws).1)
    ensures !IsValid(Tokens.GenerateTokenPair(draws).0)
  {
    var (t, d) := Tokens.GenerateTokenPair(draws);
    Tokens.TokenIsAscii(t, Tokens.PublicTokenLength);
    Tokens.TokenIsAscii(d, Tokens.DeletionTokenLength);
  }
}
