/**
 * The records the token verifier works on: the published key shape, the
 * configuration triple, the claims a token carries, and the operations of
 * the JWT library, which are not visible and are therefore parameters.
 */
module Jwk {
  import opened Wrappers

  newtype byte = x: int | 0 <= x < 256

  /** A compact token as the bytes of the Rust `String` that carries it. */
  type Jwt = seq<byte>

  /** One published signing key (fetch_keys.rs). */
  datatype JwkKey = JwkKey(e: string, alg: string, kty: string, kid: string, n: string)

  /** The expected key endpoint, audience and issuer (configuration.rs). */
  datatype JwkConfiguration = JwkConfiguration(jwkUrl: string, audience: string, issuer: string)

  /** The payload fields a token must carry; `exp` and `iat` are epoch seconds (`i64` in the source). */
  datatype Claims = Claims(aud: string, exp: int, iss: string, sub: string, iat: int)

  /** The part of a decoded token header the verifier reads: the `kid` parameter, if any. */
  datatype Header = Header(kid: Option<string>)

  /** What the library hands back for a token whose signature and structure it accepted. */
  datatype TokenData = TokenData(header: Header, claims: Claims)

  /** A signature algorithm the library recognised, identified by its name. */
  datatype Algorithm = Algorithm(name: string)

  /** A public key rebuilt from the RSA modulus and exponent of a published key. */
  datatype DecodingKey = RsaComponents(n: string, e: string)

  /** The validation settings built from one algorithm (`Validation::new`). */
  datatype Validation = Validation(algorithm: Algorithm)

  /**
   * The JWT library as three total functions whose behaviour is unknown:
   * reading the header without checking the signature, naming an algorithm,
   * and checking signature plus structural claims (including expiry).
   * `None` stands for any error the library reports.
   */
  datatype Crypto = Crypto(
    decodeHeader: Jwt -> Option<Header>,
    algorithmFromStr: string -> Option<Algorithm>,
    decode: (Jwt, DecodingKey, Validation) -> Option<TokenData>)
}
