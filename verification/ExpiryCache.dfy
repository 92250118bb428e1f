/**
  `IsAuthenticated` and its expiry cache (auth/handler.go), on top of an abstract verifier
  (auth/jwt.go). Times are Unix seconds.
 */
module ExpiryCache {

  import opened Results

  /** The registered claims of section 4.1 of RFC 7519 that the verifier checks; 0 is absent. */
  datatype Claims = Claims(expiresAt: int, notBefore: int, issuedAt: int)

  /** What the verifier finds in a JWT: whether it is signed under a key, and its claims. */
  datatype Verifier = Verifier(signed: (string, string) -> bool, claims: string -> Claims) {
    function Exp(jwt: string): int {
      claims(jwt).expiresAt
    }
  }

  predicate Current(c: Claims, now: int) {
    && (c.expiresAt == 0 || now <= c.expiresAt)
    && (c.notBefore == 0 || c.notBefore <= now)
    && (c.issuedAt == 0 || c.issuedAt <= now)
  }

  /** `VerifyToken` at time `now`, where `key` is what `GetVerificationKey` returned. */
  predicate Verifies(v: Verifier, jwt: string, key: Option<string>, now: int) {
    key.Some? && v.signed(jwt, key.value) && Current(v.claims(jwt), now)
  }

  /** A cached expiry is an int64, but the marker for "never" is stored as an int. */
  datatype Cached = Int64(e: int) | Int(e: int)
  type Cache = map<string, Cached>

  /** `Crashed` is the panic of the type assertion at line 274. */
  datatype Outcome = Accepted | Rejected(error: bool) | Crashed

  function Decide(v: Verifier, cache: Cache, jwt: string, key: Option<string>, now: int): Outcome {
    if jwt in cache then
      match cache[jwt]
      case Int(_) => Crashed
      case Int64(e) => if e > now then Accepted else Rejected(false)
    else if !Verifies(v, jwt, key, now) then Rejected(true)
    else if v.Exp(jwt) == 0 || v.Exp(jwt) > now then Accepted
    else Rejected(false)
  }

  function CacheAfter(v: Verifier, cache: Cache, jwt: string, key: Option<string>, now: int): Cache {
    if jwt in cache || !Verifies(v, jwt, key, now) then cache
    else if v.Exp(jwt) == 0 then cache[jwt := Int(0)]
    else if v.Exp(jwt) > now then cache[jwt := Int64(v.Exp(jwt))]
    else cache
  }

  class AuthenticationHandler {
    const verifier: Verifier
    var expCache: Cache

    constructor (verifier: Verifier)
      ensures this.verifier == verifier && expCache == map[]
    {
      this.verifier, expCache := verifier, map[];
    }

    /** The cache may drop entries at any time, and need not drop an entry when it expires. */
    method Evict(gone: set<string>)
      modifies this
      ensures expCache == old(expCache) - gone
    {
      expCache := expCache - gone;
    }

    /** `IsAuthenticated`, once the token has been read. */
    method IsAuthenticated(jwt: string, key: Option<string>, now: int) returns (r: Outcome)
      modifies this
      ensures r == Decide(verifier, old(expCache), jwt, key, now)
      ensures expCache == CacheAfter(verifier, old(expCache), jwt, key, now)
    {
      var ok := jwt in expCache;
      var expiry := 0;
      if ok {
        if expCache[jwt].Int? {
          return Crashed;
        }
        expiry := expCache[jwt].e;
      }
      if ok && expiry > now {
        return Accepted;
      } else if !ok {
        if !Verifies(verifier, jwt, key, now) {
          return Rejected(true);
        }
        var exp := verifier.Exp(jwt);
        if exp == 0 {
          expCache := expCache[jwt := Int(0)];
          return Accepted;
        }
        if exp > now {
          expCache := expCache[jwt := Int64(exp)];
          return Accepted;
        }
      }
      r := Rejected(false);
    }
  }

  /**
    When a JWT verifies: if there is a key, it is signed under it, and the time lies between its
    `nbf` and `iat` on the one side and its `exp` on the other, each as far as it is there
    (sections 4.1.4 to 4.1.6 of RFC 7519).
   */
  lemma {:induction false} VerifiesWhen(v: Verifier, jwt: string, key: Option<string>, now: int)
    ensures var c := v.claims(jwt);
      Verifies(v, jwt, key, now) <==>
        && (exists k :: key == Some(k) && v.signed(jwt, k))
        && !(c.notBefore != 0 && now < c.notBefore) && !(c.issuedAt != 0 && now < c.issuedAt)
        && !(c.expiresAt != 0 && c.expiresAt < now)
  {
    if key.Some? && v.signed(jwt, key.value) {
      assert key == Some(key.value);
    }
  }

  // ------------------------------------------------------------------ runs

  /** One call: the cache has dropped `gone` before it. */
  datatype Call = Call(jwt: string, key: Option<string>, now: int, gone: set<string>)

  predicate Ordered(run: seq<Call>) {
    forall i, j | 0 <= i < j < |run| :: run[i].now <= run[j].now
  }

  /** The cache just before call `i` looks into it. */
  function CacheAt(v: Verifier, run: seq<Call>, i: nat): Cache
    requires i < |run|
  {
    var before :=
      if i == 0 then map[]
      else CacheAfter(v, CacheAt(v, run, i - 1), run[i - 1].jwt, run[i - 1].key, run[i - 1].now);
    before - run[i].gone
  }

  function OutcomeAt(v: Verifier, run: seq<Call>, i: nat): Outcome
    requires i < |run|
  {
    Decide(v, CacheAt(v, run, i), run[i].jwt, run[i].key, run[i].now)
  }

  /** Verifying afresh: the JWT verifies now and its expiry, if any, lies ahead. */
  predicate Fresh(v: Verifier, jwt: string, key: Option<string>, now: int) {
    Verifies(v, jwt, key, now) && (v.Exp(jwt) == 0 || v.Exp(jwt) > now)
  }

  /** A cached entry: the JWT's own expiry, put there by a call that verified it. */
  lemma {:induction false} EntryVerified(v: Verifier, run: seq<Call>, i: nat, jwt: string) returns (j: nat)
    requires i < |run| && jwt in CacheAt(v, run, i)
    ensures j < i && run[j].jwt == jwt && Verifies(v, jwt, run[j].key, run[j].now)
    ensures CacheAt(v, run, i)[jwt] == if v.Exp(jwt) == 0 then Int(0) else Int64(v.Exp(jwt))
  {
    if run[i - 1].jwt == jwt && jwt !in CacheAt(v, run, i - 1) {
      j := i - 1;
    } else {
      j := EntryVerified(v, run, i - 1, jwt);
    }
  }

  /**
    Safety under key rotation: in every run, with any keys and any eviction, a call that
    accepts a JWT at time t has a call at or before it that verified the JWT, and the JWT's
    expiry, if any, lies after t (section 4.1.4 of RFC 7519).
   */
  lemma {:induction false} AcceptedWasVerified(v: Verifier, run: seq<Call>, i: nat) returns (j: nat)
    requires i < |run| && OutcomeAt(v, run, i) == Accepted
    ensures j <= i && run[j].jwt == run[i].jwt && Verifies(v, run[i].jwt, run[j].key, run[j].now)
    ensures v.Exp(run[i].jwt) == 0 || v.Exp(run[i].jwt) > run[i].now
  {
    if run[i].jwt in CacheAt(v, run, i) {
      j := EntryVerified(v, run, i, run[i].jwt);
    } else {
      j := i;
    }
  }

  /**
    With one key, available throughout, and a clock that does not go back, every call answers
    as if it verified afresh, provided that the JWT has an expiry.
   */
  lemma {:induction false} CacheRefines(v: Verifier, run: seq<Call>, i: nat, key: string)
    requires Ordered(run) && (forall k | 0 <= k < |run| :: run[k].key == Some(key))
    requires i < |run| && v.Exp(run[i].jwt) != 0
    ensures OutcomeAt(v, run, i) == Accepted <==> Fresh(v, run[i].jwt, run[i].key, run[i].now)
    ensures OutcomeAt(v, run, i) != Crashed
  {
    if run[i].jwt in CacheAt(v, run, i) {
      var j := EntryVerified(v, run, i, run[i].jwt);
    }
  }

  /** The answers to a JWT agree with verifying it afresh, in every run with this key. */
  ghost predicate AlwaysAgrees(v: Verifier, key: string, jwt: string) {
    forall run: seq<Call>, i: nat | Ordered(run) && i < |run| && run[i].jwt == jwt && OneKey(run, key) ::
      OutcomeAt(v, run, i) == Accepted <==> Fresh(v, jwt, Some(key), run[i].now)
  }

  predicate OneKey(run: seq<Call>, key: string) {
    forall k | 0 <= k < |run| :: run[k].key == Some(key)
  }

  /**
    Exactly the JWTs with an expiry, and those that never verify, are answered as if verified
    afresh: the second call for a valid JWT without an expiry panics.
   */
  lemma {:induction false} AgreesExactly(v: Verifier, key: string, jwt: string)
    ensures AlwaysAgrees(v, key, jwt) <==> v.Exp(jwt) != 0 || !v.signed(jwt, key)
  {
    if v.Exp(jwt) != 0 {
      forall run: seq<Call>, i: nat | Ordered(run) && i < |run| && run[i].jwt == jwt && OneKey(run, key)
        ensures OutcomeAt(v, run, i) == Accepted <==> Fresh(v, jwt, Some(key), run[i].now)
      {
        CacheRefines(v, run, i, key);
      }
    } else if !v.signed(jwt, key) {
      forall run: seq<Call>, i: nat | Ordered(run) && i < |run| && run[i].jwt == jwt && OneKey(run, key)
        ensures OutcomeAt(v, run, i) == Accepted <==> Fresh(v, jwt, Some(key), run[i].now)
      {
        if jwt in CacheAt(v, run, i) {
          var j := EntryVerified(v, run, i, jwt);
        }
      }
    } else {
      var c := v.claims(jwt);
      var now := if c.notBefore > c.issuedAt then c.notBefore else c.issuedAt;
      var call := Call(jwt, Some(key), now, {});
      NoExpiryPanics(v, call);
      var run := [call, call];
      assert run[1].jwt == jwt && Ordered(run) && OneKey(run, key);
      assert Fresh(v, jwt, Some(key), run[1].now) && OutcomeAt(v, run, 1) != Accepted;
    }
  }

  /** Twice the same valid JWT without an expiry: accepted, then a panic. */
  lemma {:induction false} NoExpiryPanics(v: Verifier, call: Call)
    requires v.Exp(call.jwt) == 0 && Verifies(v, call.jwt, call.key, call.now) && call.gone == {}
    ensures OutcomeAt(v, [call, call], 0) == Accepted && OutcomeAt(v, [call, call], 1) == Crashed
  {
    var run := [call, call];
    assert CacheAt(v, run, 0) == map[];
    assert CacheAt(v, run, 1) == map[call.jwt := Int(0)];
  }
}
