/**
  Who is who for the rate limiter: `identifyClient` (ratelimit/ratelimiting.go), and exactly
  which requests share a bucket.
 */
module Clients {
  import opened Results
  import opened Substitution
  import RateLimit

  /** strings.Replace(auth, " ", "", -1). */
  function Squeeze(s: string): string {
    ReplaceAll(s, " ", "")
  }

  /**
    `identifyClient`: the `Authorization` header without spaces, or else the address. The address
    is missing if it cannot be resolved, which makes the handler panic.
   */
  function IdentifyClient(authorization: string, address: Option<string>): Option<string> {
    if authorization != "" then Some(Squeeze(authorization)) else address
  }

  /** The text without its spaces, one character after the other. */
  function NonSpaces(s: string): string {
    if s == "" then "" else (if s[0] == ' ' then "" else [s[0]]) + NonSpaces(s[1..])
  }

  lemma {:induction false} SqueezeExact(s: string)
    ensures Squeeze(s) == NonSpaces(s) && ' ' !in Squeeze(s)
    ensures Squeeze(s) == s <==> ' ' !in s
    decreases s
  {
    if s != "" {
      SqueezeExact(s[1..]);
      assert " " <= s <==> s[0] == ' ';
      assert s == [s[0]] + s[1..];
    }
  }

  /** The headers are the same but for spaces. */
  predicate SameHeader(a: string, b: string) {
    NonSpaces(a) == NonSpaces(b)
  }

  /** A header that reads as the address, but for spaces. */
  predicate Spells(authorization: string, address: Option<string>) {
    address.Some? && NonSpaces(authorization) == address.value
  }

  /**
    Exactly which requests share a bucket: those with the same header but for spaces, those
    without one from the same address, and a header that spells the address of the other.
   */
  lemma {:induction false} BucketsExact(auth: string, address: Option<string>, auth': string, address': Option<string>)
    requires IdentifyClient(auth, address).Some? && IdentifyClient(auth', address').Some?
    ensures RateLimit.BucketKey(IdentifyClient(auth, address).value) ==
            RateLimit.BucketKey(IdentifyClient(auth', address').value) <==>
      if auth != "" && auth' != "" then SameHeader(auth, auth')
      else if auth != "" then Spells(auth, address')
      else if auth' != "" then Spells(auth', address)
      else address == address'
  {
    SqueezeExact(auth);
    SqueezeExact(auth');
    var a, b := IdentifyClient(auth, address).value, IdentifyClient(auth', address').value;
    if a != b {
      RateLimit.BucketKeysDiffer(a, b);
    }
  }

  /** The bucket of an anonymous client is open to a header from anywhere, if and only if its address has no space. */
  lemma {:induction false} AnonymousShared(address: string)
    ensures (exists auth :: auth != "" && IdentifyClient(auth, None) == IdentifyClient("", Some(address))) <==>
            ' ' !in address
  {
    if ' ' !in address {
      var auth := " " + address;
      assert auth[1..] == address;
      SqueezeExact(auth);
      SqueezeExact(address);
      assert NonSpaces(auth) == NonSpaces(address);
      assert auth != "" && IdentifyClient(auth, None) == IdentifyClient("", Some(address));
    } else {
      forall auth | auth != ""
        ensures IdentifyClient(auth, None) != IdentifyClient("", Some(address))
      {
        SqueezeExact(auth);
      }
    }
  }

  /** What is charged to it: requests with such a header spend the tokens of the anonymous client. */
  lemma {:induction false} AnonymousCharged(
    s: RateLimit.Store, lim: RateLimit.Limits, auth: string, address: string, now: int, tie: bool)
    requires auth != "" && ' ' !in address && NonSpaces(auth) == address
    requires RateLimit.Present(s, RateLimit.BucketKey(address), now, tie)
    ensures var key := RateLimit.BucketKey(address);
      var client := IdentifyClient(auth, None).value;
      var s' := RateLimit.After(s, lim, RateLimit.Request(client, now, tie, Up));
      key in s' && s'[key].value == s[key].value - 1
  {
    SqueezeExact(auth);
  }
}
