/**
 * The auth object that owns the verifier and the repeating key-refresh job
 * (jwk_auth.rs), with threads and locks stripped: each run of the job is one
 * call of `RefreshStep`.
 */
module KeyRefresh {
  import opened Wrappers
  import opened Jwk
  import opened Verifier

  /** A span of time, as Rust's `Duration` (whole seconds plus nanoseconds). */
  datatype Duration = Duration(secs: nat, nanos: nat)

  /** The delay before the next attempt after a failed fetch: `Duration::from_secs(10)`. */
  const RetryDelay: Duration := Duration(10, 0)

  /** A successful fetch: the key list and how long it stays fresh. */
  datatype JwkKeys = JwkKeys(keys: seq<JwkKey>, validity: Duration)

  /** The outcome of one fetch of the key endpoint. */
  datatype FetchResult = Fetched(jwkKeys: JwkKeys) | FetchFailed

  /** The handle stored in `cleanup`: the initial no-op, or the stop function of the repeating job. */
  datatype CleanupFn = NoOp | StopJob

  class JwkAuth {
    const verifier: JwkVerifier
    var cleanup: CleanupFn
    /** Whether the repeating refresh job is live. */
    var jobRunning: bool

    /** The verifier's table is well formed, and a live job always has its stop handle stored. */
    ghost predicate Valid()
      reads this, verifier
    {
      verifier.Valid() && (jobRunning ==> cleanup == StopJob)
    }

    /** The struct literal in `JwkAuth::new`: a fresh verifier, no job yet, a no-op cleanup. */
    constructor (initialKeys: seq<JwkKey>, config: JwkConfiguration)
      ensures fresh(verifier)
      ensures verifier.keys == KeyTable(initialKeys) && verifier.config == config
      ensures cleanup == NoOp && !jobRunning
      ensures Valid()
    {
      verifier := new JwkVerifier(initialKeys, config);
      cleanup := NoOp;
      jobRunning := false;
    }

    /**
     * `JwkAuth::new`: there is no instance unless the initial fetch succeeds
     * (the source panics; here the result is `None`). Otherwise the verifier
     * holds exactly the fetched keys and the refresh job is running.
     */
    static method New(initial: FetchResult, config: JwkConfiguration) returns (auth: Option<JwkAuth>)
      ensures auth.None? <==> initial.FetchFailed?
      ensures auth.Some? ==>
        fresh(auth.value) && fresh(auth.value.verifier) && auth.value.Valid() &&
        auth.value.verifier.keys == KeyTable(initial.jwkKeys.keys) &&
        auth.value.verifier.config == config &&
        auth.value.jobRunning && auth.value.cleanup == StopJob
    {
      match initial
      case FetchFailed =>
        auth := None;
      case Fetched(jwkKeys) =>
        var instance := new JwkAuth(jwkKeys.keys, config);
        instance.StartKeyUpdate();
        auth := Some(instance);
    }

    /**
     * `start_key_update`: start the job and keep its stop function as the
     * cleanup handle. Only `new` calls it, on an instance whose cleanup is
     * still the no-op; nothing resets the handle, so the job starts once.
     */
    method StartKeyUpdate()
      requires Valid()
      requires !jobRunning && cleanup == NoOp
      modifies this
      ensures Valid()
      ensures jobRunning && cleanup == StopJob
    {
      jobRunning := true;
      cleanup := StopJob;
    }

    /** `verify`: exactly what the inner verifier answers on its current table. */
    function Verify(crypto: Crypto, token: Jwt): (r: Option<TokenData>)
      reads verifier
      ensures r == verifier.Verify(crypto, token)
      ensures r.Some? ==> r.value.claims.aud == verifier.config.audience && r.value.claims.iss == verifier.config.issuer
      ensures HeaderKid(crypto, token).Some? && HeaderKid(crypto, token).value !in verifier.keys ==> r.None?
    {
      verifier.Verify(crypto, token)
    }

    /**
     * One run of the refresh job, given what the fetch returned: on success the
     * table is replaced by the fetched keys and the next run is after their
     * validity; on failure the table is kept and the next run is after ten seconds.
     * The job body runs only while the job is live, so after `Drop` there is no refresh.
     */
    method RefreshStep(fetched: FetchResult) returns (delay: Duration)
      requires Valid()
      requires jobRunning
      modifies verifier
      ensures Valid() && jobRunning
      ensures fetched.Fetched? ==>
        verifier.keys == KeyTable(fetched.jwkKeys.keys) && delay == fetched.jwkKeys.validity
      ensures fetched.FetchFailed? ==>
        verifier.keys == old(verifier.keys) && delay == RetryDelay
    {
      match fetched
      case Fetched(jwkKeys) =>
        verifier.SetKeys(jwkKeys.keys);
        delay := jwkKeys.validity;
      case FetchFailed =>
        delay := RetryDelay;
    }

    /** `drop`: invoke the stored handle; since a live job always has its stop handle stored, no job survives. */
    method Drop()
      requires Valid()
      modifies this
      ensures Valid()
      ensures !jobRunning
      ensures cleanup == old(cleanup)
    {
      match cleanup
      case NoOp =>
      case StopJob =>
        jobRunning := false;
    }
  }
}
