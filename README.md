# JWK token verification, modelled in Dafny

This project models the authentication core of a Rocket service. The service accepts bearer JWTs issued by an external identity provider. It checks them against a set of public signing keys (JWKs) that a background job fetches again and again. The project has three parts.

- **Verifier** (`verifier.dfy`, module `Verifier`).
  - The key table is built from a fetched key list. Keys are inserted one by one, so when two keys share a `kid` the later one wins.
  - `set_keys` replaces the table wholesale.
  - `verify` is a fixed-order pipeline that stops at the first failure. It reads the header `kid` (section 4.1.4 of RFC 7515), then looks up the key, then maps the key's `alg` to an algorithm, then checks the signature through the JWT library. Last, it checks the `aud` claim and then the `iss` claim (sections 4.1.3 and 4.1.1 of RFC 7519).
  - The JWT library is the `Crypto` record in `jwk_types.dfy`. It holds three functions whose behaviour is unknown, and every property holds for every choice of them.
- **Key refresh** (`key_refresh.dfy`, module `KeyRefresh`). The `JwkAuth` class owns the verifier and the cleanup handle. Threads and locks are removed, so one run of the repeating job is one call of `RefreshStep`. Construction yields no instance when the first fetch fails. `Drop` invokes the stored handle, and that stops the job.
- **Request guard** (`request_guard.dfy`, module `RequestGuard`). This is a pure decision table. Its inputs are the `Authorization` header values, whether the auth object is present, and what its `verify` answers. Its output is a user or a `(Status, AuthError)` pair. Header values and tokens are byte strings, because the source slices the header by byte index.

Points about the code worth knowing:
- The source has four internal verification errors: `InvalidAudience`, `InvalidIssuer`, `InvalidSignature` and `UnkownKeyAlgorithm`. A header that does not decode, or a `kid` that is missing or unknown, makes `verify` return `None` directly, with no error value.
- Duplicate `kid`s in one fetched list are resolved last-write-wins.
- `verify` returns the library's whole `TokenData`, not the claims alone.
- The guard drops the first seven bytes of the header without checking that they are `"Bearer "`.

## Model

| member | source | states |
|---|---|---|
| Verifier.KeyTable | src/config/auth/jwk/verifier.rs:37-43 | the table built from a key list has exactly the list's `kid`s as keys, and every entry is filed under its own `kid` |
| Verifier.LastIndexOf | src/config/auth/jwk/verifier.rs:39-41 | reference for "last write": the returned index holds the `kid`, no later index does, and -1 exactly when the `kid` is absent |
| Verifier.KeyTableLastWins | src/config/auth/jwk/verifier.rs:39-41 | with duplicate `kid`s the table holds the last key in list order with that `kid` |
| Verifier.KeysToMap | src/config/auth/jwk/verifier.rs:37-43 | the insertion loop produces exactly the key table of its input, with domain = the input's `kid`s and each entry under its own `kid` |
| Verifier.JwkVerifier.constructor | src/config/auth/jwk/verifier.rs:46-51 | a new verifier holds the table of the initial keys and the given configuration |
| Verifier.JwkVerifier.SetKeys | src/config/auth/jwk/verifier.rs:74-76 | the table becomes the table of the new keys with no merge: old keys that are not in the new list are gone |
| Verifier.JwkVerifier.GetKey | src/config/auth/jwk/verifier.rs:78-80 | lookup misses exactly when the `kid` is not in the table; a hit is exactly the table's entry for that `kid`, which in a well-formed table carries that `kid` |
| Verifier.JwkVerifier.DecodeTokenWithKey | src/config/auth/jwk/verifier.rs:82-95 | an unknown algorithm name is `UnkownKeyAlgorithm`; a library decode failure is `InvalidSignature`; a success is the library's output for the RSA components and that algorithm |
| Verifier.JwkVerifier.VerifyTokenData | src/config/auth/jwk/verifier.rs:97-108 | `InvalidAudience` iff the audience differs, even when the issuer also differs; `InvalidIssuer` iff the audience matches and the issuer differs; otherwise the token data is unchanged |
| Verifier.JwkVerifier.Verify | src/config/auth/jwk/verifier.rs:53-72 | `None` when the header fails or has no `kid`, or the `kid` is not in the table; `Some` exactly when the key decodes the token and both claims match; then the result is the decoder's output unchanged |
| Verifier.VerifyReadsOneEntry | src/config/auth/jwk/verifier.rs:53-80 | verification depends only on the configuration and the one table entry named by the token's `kid` |
| Verifier.RetiredKeyRejected | src/config/auth/jwk/verifier.rs:74-80 | after the table is built from a list without the token's `kid`, the token is rejected: there is no grace period |
| Verifier.VerifyUsesLastDuplicate | src/config/auth/jwk/verifier.rs:39-41 | when the fetched list has several keys with the token's `kid`, an accepted token was decoded with the last of them |
| KeyRefresh.JwkAuth.constructor | src/config/auth/jwk/jwk_auth.rs:32-37 | the auth object starts with a fresh verifier over the fetched keys, a no-op cleanup and no running job |
| KeyRefresh.JwkAuth.New | src/config/auth/jwk/jwk_auth.rs:24-41 | no instance iff the initial fetch fails; otherwise the verifier's table is exactly that of the fetched keys and the job runs with its stop handle stored |
| KeyRefresh.JwkAuth.StartKeyUpdate | src/config/auth/jwk/jwk_auth.rs:48-66 | started once, on an instance with no job yet: afterwards the job is running and the cleanup handle is its stop function |
| KeyRefresh.JwkAuth.Verify | src/config/auth/jwk/jwk_auth.rs:43-46 | delegates to the inner verifier on its current table, so an accepted token matches the configured audience and issuer |
| KeyRefresh.JwkAuth.RefreshStep | src/config/auth/jwk/jwk_auth.rs:51-62 | after a successful fetch the table is that of the fetched keys and the delay is their validity; after a failed fetch the table is unchanged and the delay is 10 seconds; it runs only while the job is live, so never after `Drop` |
| KeyRefresh.JwkAuth.Drop | src/config/auth/jwk/jwk_auth.rs:15-20 | invoking the stored handle leaves no job running, since a live job always has its stop handle stored |
| RequestGuard.GetTokenFromHeaderAsWritten | src/config/auth/request_guard.rs:18-25 | no token iff the header is shorter than 7 bytes; a panic iff byte 7 is inside a multi-byte character; otherwise the bytes after the first seven |
| RequestGuard.MissingSpaceBeforeAccentPanics | src/config/auth/request_guard.rs:23 | the header "Bearer" followed by "é" makes the slice panic |
| RequestGuard.GetTokenFromHeader | src/config/auth/request_guard.rs:18-25 | no token iff the header is shorter than 7 bytes or byte 7 is inside a character; otherwise exactly the bytes after the first seven, whatever those seven are |
| RequestGuard.GetTokenFromHeaderAgrees | src/config/auth/request_guard.rs:18-25 | the corrected extraction gives the written one's answer wherever the written one does not panic |
| RequestGuard.ExtractionInvertsPrefix | src/config/auth/request_guard.rs:19-23 | any 7 bytes followed by a token that starts a character give back exactly that token |
| RequestGuard.ExtractTokenExamples | src/config/auth/request_guard.rs:67-77 | for both the written and the corrected extraction, "Bearer token_string" gives "token_string" and "Bear" and "Bearer" give none; "Bearer " gives the empty token |
| RequestGuard.VerifyToken | src/config/auth/request_guard.rs:27-36 | success iff verify accepts the token, with the user's uid the token's `sub`; otherwise `(BadRequest, InvalidJwt)` |
| RequestGuard.ParseAndVerifyAuthHeader | src/config/auth/request_guard.rs:38-45 | a header with no token is `(Unauthorized, InvalidJwt)`; otherwise the outcome of verifying the extracted token |
| RequestGuard.FromRequest | src/config/auth/request_guard.rs:50-62 | no auth object is `(InternalServerError, NoJwkVerifier)`; 0 headers is `(Unauthorized, NoAuthorizationHeader)`; more than one is `(BadRequest, MultipleKeysProvided)`; success iff exactly one header yields a token that verify accepts |
| RequestGuard.VerifyNotConsulted | src/config/auth/request_guard.rs:54-58 | unless exactly one header carries a token, the outcome is a failure that does not depend on verify |
| RequestGuard.RejectionHidesReason | src/config/auth/request_guard.rs:27-45 | every token that verify rejects gives the same `(BadRequest, InvalidJwt)`, whichever check failed |

## Findings

| source | as written | input that shows it | evidently intended | confidence | as-written member | corrected member |
|---|---|---|---|---|---|---|
| src/config/auth/request_guard.rs:23 | `header[prefix_len..]` slices a `&str` at byte 7. Rust panics when that byte is inside a multi-byte UTF-8 character. | The header value "Bearer" directly followed by "é" (bytes 42 65 61 72 65 72 C3 A9). This is valid UTF-8, but byte 7 is the continuation byte A9. | Never panic on client input. A header with no usable token is refused as `(Unauthorized, InvalidJwt)`, like a short header. | medium, not executed | RequestGuard.GetTokenFromHeaderAsWritten, RequestGuard.MissingSpaceBeforeAccentPanics | RequestGuard.GetTokenFromHeader, RequestGuard.GetTokenFromHeaderAgrees |

The rest of the model, `ParseAndVerifyAuthHeader` and `FromRequest`, uses the corrected extraction. The correction does not add a `"Bearer "` prefix check, because that would change which headers are accepted.

## Left out

- JWT cryptography and parsing belong to the `jsonwebtoken` crate. The `Crypto` record holds three unknown functions: `decodeHeader` for `decode_header`, `algorithmFromStr` for `Algorithm::from_str`, and `decode` for `decode`, including its `exp` check. `DecodingKey::from_rsa_components` and `Validation::new` are the datatype constructors `RsaComponents` and `Validation`. They only record their arguments and have no key or validation semantics.
- Fetching keys (src/config/auth/jwk/fetch_keys.rs) is an HTTP GET plus JSON decoding. A fetch is an input value `Fetched(keys, validity)` or `FetchFailed`. Only the `JwkKey` record shape is kept.
- Parsing `max-age` into the validity, and the repeating-job scheduler, are not part of this model. The validity is an opaque `Duration`. The scheduler's sleeping, and the way the stop function ends its loop, are reduced to the `jobRunning` flag.
- Configuration loading (src/config/auth/jwk/configuration.rs) reads environment variables. `JwkVerifier::new` calls it itself. In the model the configuration is a constructor parameter.
- Concurrency is not modelled. This covers the `Arc<Mutex<_>>` around the verifier, lock atomicity, the background thread and the timing of `Drop`. Everything is sequential, one call at a time.
- RequestGuard.ParseAndVerifyAuthHeader: uses the corrected extraction. On a header whose byte 7 is inside a multi-byte character it gives `(Unauthorized, InvalidJwt)`, where the code as written panics (request_guard.rs:23, 41).
- RequestGuard.FromRequest: built on `ParseAndVerifyAuthHeader`. For the same headers it gives `(Unauthorized, InvalidJwt)` where the code as written panics.
- KeyRefresh.JwkAuth.RefreshStep: requires a live job, because the scheduler runs the closure only while the job is live. The scheduler itself is not part of this model, and neither is the progress message the step prints.
- KeyRefresh.JwkAuth.New: the panic on a failed initial fetch becomes a `None` result. The panic message and process abort are not modelled.
- Rocket request and state plumbing is not modelled: `FromRequest`, `State`, `Outcome::Forward`, and collecting the header values. The guard receives the header values and an optional verify function. The wiring in `main.rs` and `mod.rs` is left out too.
- `Claims.exp` and `Claims.iat` are `i64` in the source. They are unbounded integers here because the model never does arithmetic on them.
- Header values are taken to be valid UTF-8, as a `&str` guarantees. The model checks only the character-boundary rule at byte 7, not full UTF-8 validity.
