/**
 * The key table and the token-verification pipeline (verifier.rs):
 * header `kid` -> key lookup -> algorithm -> signature -> audience, then issuer.
 */
module Verifier {
  import opened Wrappers
  import opened Jwk

  /** The internal failure reasons; `Verify` collapses every one of them to `None`. */
  datatype VerificationError = InvalidAudience | InvalidIssuer | InvalidSignature | UnkownKeyAlgorithm

  /** The key ids that occur in a fetched key list. */
  function Kids(ks: seq<JwkKey>): set<string>
  {
    set i | 0 <= i < |ks| :: ks[i].kid
  }

  /**
   * The table that inserting the keys one by one, in list order, produces.
   * Its domain is exactly the key ids of the list and every entry is filed
   * under its own id.
   */
  function KeyTable(ks: seq<JwkKey>): (m: map<string, JwkKey>)
    ensures m.Keys == Kids(ks)
    ensures forall kid :: kid in m ==> m[kid].kid == kid
  {
    if ks == [] then map[]
    else
      var n := |ks| - 1;
      assert Kids(ks) == Kids(ks[..n]) + {ks[n].kid} by {
        forall kid | kid in Kids(ks) ensures kid in Kids(ks[..n]) + {ks[n].kid} {
          var i :| 0 <= i < |ks| && ks[i].kid == kid;
          if i < n { assert ks[..n][i] == ks[i]; }
        }
        forall kid | kid in Kids(ks[..n]) ensures kid in Kids(ks) {
          var i :| 0 <= i < n && ks[..n][i].kid == kid;
          assert ks[i] == ks[..n][i];
        }
      }
      KeyTable(ks[..n])[ks[n].kid := ks[n]]
  }

  /** The position of the last key with id `kid`, or -1 when there is none. */
  function LastIndexOf(ks: seq<JwkKey>, kid: string): (i: int)
    ensures -1 <= i < |ks|
    ensures i == -1 <==> kid !in Kids(ks)
    ensures i >= 0 ==> ks[i].kid == kid
    ensures forall j :: i < j < |ks| ==> ks[j].kid != kid
  {
    if ks == [] then -1
    else
      var n := |ks| - 1;
      if ks[n].kid == kid then n
      else
        var i := LastIndexOf(ks[..n], kid);
        assert forall j :: 0 <= j < n ==> ks[..n][j] == ks[j];
        assert kid in Kids(ks) ==> kid in Kids(ks[..n]) by {
          if kid in Kids(ks) {
            var w :| 0 <= w < |ks| && ks[w].kid == kid;
            assert ks[..n][w].kid == kid;
          }
        }
        i
  }

  /** With duplicate ids, the table keeps the key that comes last in the list. */
  lemma {:induction false} KeyTableLastWins(ks: seq<JwkKey>, kid: string)
    requires kid in Kids(ks)
    ensures 0 <= LastIndexOf(ks, kid) < |ks|
    ensures KeyTable(ks)[kid] == ks[LastIndexOf(ks, kid)]
  {
    var n := |ks| - 1;
    if ks[n].kid != kid {
      var w :| 0 <= w < |ks| && ks[w].kid == kid;
      assert ks[..n][w].kid == kid;
      KeyTableLastWins(ks[..n], kid);
      assert ks[..n][LastIndexOf(ks[..n], kid)] == ks[LastIndexOf(ks, kid)];
    }
  }

  /** `keys_to_map`: fill a table by inserting every key under its id, later keys overwriting earlier ones. */
  method KeysToMap(keys: seq<JwkKey>) returns (m: map<string, JwkKey>)
    ensures m == KeyTable(keys)
    ensures m.Keys == Kids(keys)
    ensures forall kid :: kid in m ==> m[kid].kid == kid
  {
    m := map[];
    for i := 0 to |keys|
      invariant m == KeyTable(keys[..i])
    {
      assert keys[..i + 1][..i] == keys[..i];
      m := m[keys[i].kid := keys[i]];
    }
    assert keys[..|keys|] == keys;
  }

  /** The `kid` of a token's header: absent when the header does not decode or has no `kid`. */
  function HeaderKid(crypto: Crypto, token: Jwt): Option<string>
  {
    match crypto.decodeHeader(token)
    case None => None
    case Some(header) => header.kid
  }

  class JwkVerifier {
    var keys: map<string, JwkKey>
    const config: JwkConfiguration

    /** Every key is filed under its own id. */
    ghost predicate Valid()
      reads this
    {
      forall kid :: kid in keys ==> keys[kid].kid == kid
    }

    /** `JwkVerifier::new`: the table built from the initial keys, and the configuration. */
    constructor (ks: seq<JwkKey>, config: JwkConfiguration)
      ensures Valid()
      ensures keys == KeyTable(ks) && keys.Keys == Kids(ks)
      ensures this.config == config
    {
      var m := KeysToMap(ks);
      keys := m;
      this.config := config;
    }

    /** `set_keys`: the whole table is replaced; no key of the old table survives unless it is fetched again.
        The configuration is a `const` field, so it cannot change. */
    method SetKeys(ks: seq<JwkKey>)
      modifies this
      ensures Valid()
      ensures keys == KeyTable(ks) && keys.Keys == Kids(ks)
    {
      keys := KeysToMap(ks);
    }

    /** `get_key`: the key filed under `kid`, if any. */
    function GetKey(kid: string): (r: Option<JwkKey>)
      reads this
      ensures r.None? <==> kid !in keys
      ensures r.Some? ==> r.value == keys[kid]
      ensures Valid() && r.Some? ==> r.value.kid == kid
    {
      if kid in keys then Some(keys[kid]) else None
    }

    /**
     * `decode_token_with_key`: an algorithm name the library does not know is
     * `UnkownKeyAlgorithm`; any failure of the library's decode is `InvalidSignature`.
     */
    function DecodeTokenWithKey(crypto: Crypto, key: JwkKey, token: Jwt): (r: Result<TokenData, VerificationError>)
      ensures r.Err? ==> r.error == UnkownKeyAlgorithm || r.error == InvalidSignature
      ensures r == Err(UnkownKeyAlgorithm) <==> crypto.algorithmFromStr(key.alg).None?
      ensures r == Err(InvalidSignature) <==>
        (crypto.algorithmFromStr(key.alg).Some? &&
         crypto.decode(token, RsaComponents(key.n, key.e), Validation(crypto.algorithmFromStr(key.alg).value)).None?)
      ensures r.Ok? ==>
        crypto.algorithmFromStr(key.alg).Some? &&
        crypto.decode(token, RsaComponents(key.n, key.e), Validation(crypto.algorithmFromStr(key.alg).value)) == Some(r.value)
    {
      match crypto.algorithmFromStr(key.alg)
      case None => Err(UnkownKeyAlgorithm)
      case Some(algorithm) =>
        match crypto.decode(token, RsaComponents(key.n, key.e), Validation(algorithm))
        case None => Err(InvalidSignature)
        case Some(td) => Ok(td)
    }

    /**
     * `verify_token_data`: the audience is checked before the issuer, so a
     * token wrong in both is reported as `InvalidAudience`.
     */
    function VerifyTokenData(td: TokenData): (r: Result<TokenData, VerificationError>)
      ensures r == Err(InvalidAudience) <==> td.claims.aud != config.audience
      ensures r == Err(InvalidIssuer) <==> td.claims.aud == config.audience && td.claims.iss != config.issuer
      ensures r.Ok? <==> td.claims.aud == config.audience && td.claims.iss == config.issuer
      ensures r.Ok? ==> r.value == td
    {
      if td.claims.aud != config.audience then Err(InvalidAudience)
      else if td.claims.iss != config.issuer then Err(InvalidIssuer)
      else Ok(td)
    }

    /**
     * `verify`: `Some` exactly when the header names a key of the table, that
     * key's algorithm is known, the library accepts the token with it, and the
     * audience and issuer are the configured ones; the result is then the
     * library's own output, unchanged.
     */
    function Verify(crypto: Crypto, token: Jwt): (r: Option<TokenData>)
      reads this
      ensures HeaderKid(crypto, token).None? ==> r.None?
      ensures HeaderKid(crypto, token).Some? && HeaderKid(crypto, token).value !in keys ==> r.None?
      ensures r.Some? ==> r.value.claims.aud == config.audience && r.value.claims.iss == config.issuer
      ensures r.Some? ==>
        HeaderKid(crypto, token).Some? && HeaderKid(crypto, token).value in keys &&
        DecodeTokenWithKey(crypto, keys[HeaderKid(crypto, token).value], token) == Ok(r.value)
      ensures
        (HeaderKid(crypto, token).Some? && HeaderKid(crypto, token).value in keys &&
         var decoded := DecodeTokenWithKey(crypto, keys[HeaderKid(crypto, token).value], token);
         decoded.Ok? && decoded.value.claims.aud == config.audience && decoded.value.claims.iss == config.issuer)
        ==> r.Some?
    {
      match HeaderKid(crypto, token)
      case None => None
      case Some(kid) =>
        match GetKey(kid)
        case None => None
        case Some(key) =>
          var decoded := DecodeTokenWithKey(crypto, key, token);
          var checked := if decoded.Ok? then VerifyTokenData(decoded.value) else decoded;
          if checked.Ok? then Some(checked.value) else None
    }
  }

  /**
   * Verification reads only the configuration and the one table entry the
   * token's `kid` names: two verifiers that agree there give the same answer.
   */
  lemma VerifyReadsOneEntry(v: JwkVerifier, w: JwkVerifier, crypto: Crypto, token: Jwt)
    requires v.config == w.config
    requires HeaderKid(crypto, token).Some? ==>
      var kid := HeaderKid(crypto, token).value;
      (kid in v.keys <==> kid in w.keys) && (kid in v.keys ==> v.keys[kid] == w.keys[kid])
    ensures v.Verify(crypto, token) == w.Verify(crypto, token)
  {
  }

  /**
   * No grace period: once the table is built from a key list that lacks the
   * token's `kid`, the token is rejected whatever its signature.
   */
  lemma RetiredKeyRejected(v: JwkVerifier, crypto: Crypto, ks: seq<JwkKey>, token: Jwt)
    requires v.keys == KeyTable(ks)
    requires HeaderKid(crypto, token).Some? && HeaderKid(crypto, token).value !in Kids(ks)
    ensures v.Verify(crypto, token).None?
  {
  }

  /**
   * When the fetched list holds several keys with the token's `kid`, the token
   * is checked against the last of them and only that one.
   */
  lemma {:induction false} VerifyUsesLastDuplicate(v: JwkVerifier, crypto: Crypto, ks: seq<JwkKey>, token: Jwt)
    requires v.keys == KeyTable(ks)
    requires HeaderKid(crypto, token).Some? && HeaderKid(crypto, token).value in Kids(ks)
    ensures 0 <= LastIndexOf(ks, HeaderKid(crypto, token).value) < |ks|
    ensures v.Verify(crypto, token).Some? ==>
      v.DecodeTokenWithKey(crypto, ks[LastIndexOf(ks, HeaderKid(crypto, token).value)], token) == Ok(v.Verify(crypto, token).value)
  {
    KeyTableLastWins(ks, HeaderKid(crypto, token).value);
  }
}
