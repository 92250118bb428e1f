/**
  What becomes of one request, said in the fields of the configuration, of the application and
  of the request alone (auth/rest.go, dispatcher/no_integration_dispatcher.go,
  dispatcher/behaviours.go, ratelimit/ratelimiting.go, cache/cache.go).
 */
module Outcomes {
  import opened Results
  import RateLimit
  import ExpiryCache
  import ResponseCache
  import opened Stack
  import opened Service

  // ------------------------------------------------------------------ the limiter

  /**
    A rate-limited application refuses with 503 if the store fails and with 429 if no token is
    left, and then nothing else happens; any other hands every request on.
   */
  lemma {:induction false} LimiterOutcome(cfg: Config, g: Gateway, r: Request)
    ensures var s, v := Step(cfg, g, r), RateLimit.Decide(g.limits, cfg.lim, r.rate);
      if r.app.rateLimiting && v.Unavailable? then s.trace == [Counted(v)] && s.reply == Refused(503)
      else if r.app.rateLimiting && v.TooMany? then s.trace == [Counted(v)] && s.reply == Refused(429)
      else |s.trace| > |Count(cfg, g, r)| && !s.trace[|Count(cfg, g, r)|].Counted?
  {
    RouteTower(r.app, r.verb);
    LimiterFirst(cfg, g, r);
    var g1 := Before(g, r).(limits := Limits(cfg, g, r));
    var inner := Serve(Inner(r.app, r.verb), cfg, g1, r, None);
    InnerNeverCounts(cfg, g1, r, None);
    InnerActs(cfg, g1, r, None);
    assert Admits(cfg, g, r) ==> Step(cfg, g, r).trace[|Count(cfg, g, r)|] == inner.trace[0];
  }

  lemma {:induction false} InnerActs(cfg: Config, g: Gateway, r: Request, jwt: Option<string>)
    ensures Serve(Inner(r.app, r.verb), cfg, g, r, jwt).trace != []
  {
    CoreTouches(cfg, g, r, jwt);
  }

  /** The limiter, if there is one, grants a token. */
  predicate Granted(cfg: Config, g: Gateway, r: Request) {
    !r.app.rateLimiting || RateLimit.Decide(g.limits, cfg.lim, r.rate).Pass?
  }

  // ------------------------------------------------------------------ the check

  /** The application is the authentication service, or shares its URL, which is not empty. */
  predicate IsAuthService(cfg: Config, name: string) {
    cfg.service == name || (name in cfg.urls && cfg.urls[name] == cfg.url && cfg.url != "")
  }

  /** A request reached the cache or the backend, which was given this JWT if it was called; or it did neither. */
  predicate Reached(s: Served, jwt: Option<string>) {
    && s.reply.Answered? && (exists i | 0 <= i < |s.trace| :: IsTouch(s.trace[i]))
    && forall i | 0 <= i < |s.trace| && s.trace[i].Called? :: s.trace[i].jwt == jwt
  }

  predicate Stopped(s: Served, reply: Reply) {
    s.reply == reply && forall i | 0 <= i < |s.trace| :: !IsTouch(s.trace[i])
  }

  lemma {:induction false} CheckOutcome(cfg: Config, g: Gateway, r: Request)
    requires Subject(r) && Granted(cfg, g, r)
    ensures var s, ruling := Step(cfg, g, r), RulingOn(cfg, g, r);
      if ruling.Allowed? then Reached(s, ruling.jwt) else Stopped(s, Refusal(ruling))
  {
    SubjectStep(cfg, g, r);
    var s, ruling := Step(cfg, g, r), RulingOn(cfg, g, r);
    if ruling.Allowed? {
      var core := Serve(Core(r.app, r.verb), cfg, Passed(cfg, g, r), r, ruling.jwt);
      CoreReached(cfg, Passed(cfg, g, r), r, ruling.jwt);
      ReachedAfter(Count(cfg, g, r) + [Checked(ruling)], core, s, ruling.jwt);
    }
  }

  /**
    Without a token: the request gets through if and only if the application is the
    authentication service or shares its URL, which must not be empty; any other refuses it
    with 403. So an application without a URL, and that is not the service, is never exempt.
   */
  lemma {:induction false} AnonymousOutcome(cfg: Config, g: Gateway, r: Request)
    requires !r.app.authDisabled && r.verb != OPTIONS && r.credentials == NoToken && Granted(cfg, g, r)
    ensures var s, name := Step(cfg, g, r), r.app.name;
      && (cfg.service == name || (name in cfg.urls && cfg.urls[name] == cfg.url && cfg.url != "") ==> Reached(s, None))
      && (cfg.service != name && (name !in cfg.urls || cfg.urls[name] != cfg.url || cfg.url == "") ==>
            Stopped(s, Refused(403)))
  {
    CheckOutcome(cfg, g, r);
  }

  lemma {:induction false} NeverExempt(cfg: Config, g: Gateway, r: Request)
    requires !r.app.authDisabled && r.verb != OPTIONS && r.credentials == NoToken && Granted(cfg, g, r)
    requires cfg.service != r.app.name && (r.app.name !in cfg.urls || cfg.urls[r.app.name] == "")
    ensures Stopped(Step(cfg, g, r), Refused(403))
  {
    AnonymousOutcome(cfg, g, r);
  }

  /** A token that cannot be read is refused with 503. */
  lemma {:induction false} UnreadableOutcome(cfg: Config, g: Gateway, r: Request)
    requires !r.app.authDisabled && r.verb != OPTIONS && r.credentials == Unreadable && Granted(cfg, g, r)
    ensures Stopped(Step(cfg, g, r), Refused(503))
  {
    CheckOutcome(cfg, g, r);
  }

  /**
    With a token whose JWT's expiry is cached: it holds until then, and counts for nothing
    afterwards; the marker for "never" drops the connection.
   */
  lemma {:induction false} CachedTokenOutcome(cfg: Config, g: Gateway, r: Request)
    requires !r.app.authDisabled && r.verb != OPTIONS && r.credentials.Token? && Granted(cfg, g, r)
    requires r.credentials.jwt in g.expiries && r.credentials.jwt !in r.dropped
    ensures var s, jwt, entry := Step(cfg, g, r), r.credentials.jwt, g.expiries[r.credentials.jwt];
      && (entry.Int? ==> Stopped(s, Dropped))
      && (entry.Int64? && entry.e > r.now ==> HolderOutcome(cfg, r, s, jwt))
      && (entry.Int64? && entry.e <= r.now ==>
            if IsAuthService(cfg, r.app.name) then Reached(s, None) else Stopped(s, Refused(403)))
  {
    CheckOutcome(cfg, g, r);
  }

  /** The holder of a JWT gets through if the token is for this application or for all, or none is needed. */
  predicate HolderOutcome(cfg: Config, r: Request, s: Served, jwt: string)
    requires r.credentials.Token?
  {
    var allowed := r.credentials.allowed;
    if allowed == [] || r.app.name in allowed || IsAuthService(cfg, r.app.name) then Reached(s, Some(jwt))
    else Stopped(s, Refused(403))
  }

  /** With any other token: the JWT is verified with the key of the moment, and its expiry is checked. */
  lemma {:induction false} NewTokenOutcome(cfg: Config, g: Gateway, r: Request)
    requires !r.app.authDisabled && r.verb != OPTIONS && r.credentials.Token? && Granted(cfg, g, r)
    requires r.credentials.jwt !in g.expiries || r.credentials.jwt in r.dropped
    ensures var s, jwt := Step(cfg, g, r), r.credentials.jwt; var exp := cfg.verifier.claims(jwt).expiresAt;
      var current := ExpiryCache.Current(cfg.verifier.claims(jwt), r.now);
      if !(r.key.Some? && cfg.verifier.signed(jwt, r.key.value) && current) then Stopped(s, Refused(503))
      else if exp == 0 || exp > r.now then HolderOutcome(cfg, r, s, jwt)
      else if IsAuthService(cfg, r.app.name) then Reached(s, None)
      else Stopped(s, Refused(403))
  {
    CheckOutcome(cfg, g, r);
  }

  /** What went before without calling the backend does not matter. */
  lemma {:induction false} ReachedAfter(before: seq<Event>, inner: Served, s: Served, jwt: Option<string>)
    requires Reached(inner, jwt) && s.trace == before + inner.trace && s.reply == inner.reply
    requires forall i | 0 <= i < |before| :: !before[i].Called?
    ensures Reached(s, jwt)
  {
    var i :| 0 <= i < |inner.trace| && IsTouch(inner.trace[i]);
    assert s.trace[|before| + i] == inner.trace[i];
    assert forall k | |before| <= k < |s.trace| :: s.trace[k] == inner.trace[k - |before|];
  }

  lemma {:induction false} CoreReached(cfg: Config, g: Gateway, r: Request, jwt: Option<string>)
    ensures Reached(Serve(Core(r.app, r.verb), cfg, g, r, jwt), jwt)
  {
    CoreTouches(cfg, g, r, jwt);
    CoreAnswers(cfg, g, r, jwt);
    assert IsTouch(Serve(Core(r.app, r.verb), cfg, g, r, jwt).trace[0]);
  }

  lemma {:induction false} UncheckedInside(cfg: Config, g: Gateway, r: Request)
    requires r.app.authDisabled || r.verb == OPTIONS
    ensures var s := Serve(Inner(r.app, r.verb), cfg, g, r, None); Reached(s, None) && s.gateway.expiries == g.expiries
  {
    var core := Serve(Core(r.app, r.verb), cfg, g, r, None);
    CoreReached(cfg, g, r, None);
    CoreKeeps(cfg, g, r, None);
    if !r.app.authDisabled {
      ReachedAfter([Checked(Exempt)], core, Serve(Inner(r.app, r.verb), cfg, g, r, None), None);
    }
  }

  /** An OPTIONS request, and any to an application without authentication, gets through unchecked. */
  lemma {:induction false} UncheckedOutcome(cfg: Config, g: Gateway, r: Request)
    requires (r.app.authDisabled || r.verb == OPTIONS) && Granted(cfg, g, r)
    ensures var s := Step(cfg, g, r); Reached(s, None) && s.gateway.expiries == g.expiries - r.dropped
  {
    LimiterFirst(cfg, g, r);
    var g1 := Before(g, r).(limits := Limits(cfg, g, r));
    UncheckedInside(cfg, g1, r);
    ReachedAfter(Count(cfg, g, r), Serve(Inner(r.app, r.verb), cfg, g1, r, None), Step(cfg, g, r), None);
  }

  // ------------------------------------------------------------------ the methods

  /** Whoever is answered has been through to the core, which found the cache as it was. */
  lemma {:induction false} AnsweredByCore(cfg: Config, g: Gateway, r: Request)
    returns (g': Gateway, jwt: Option<string>)
    requires Step(cfg, g, r).reply.Answered?
    ensures g'.responses == g.responses - r.evicted
    ensures SameEnd(Step(cfg, g, r), Serve(Core(r.app, r.verb), cfg, g', r, jwt))
  {
    LimiterFirst(cfg, g, r);
    var g1 := Before(g, r).(limits := Limits(cfg, g, r));
    InnerActs(cfg, g1, r, None);
    g', jwt := AnsweredInside(cfg, g1, r);
  }

  lemma {:induction false} AnsweredInside(cfg: Config, g: Gateway, r: Request)
    returns (g': Gateway, jwt: Option<string>)
    requires Serve(Inner(r.app, r.verb), cfg, g, r, None).reply.Answered?
    ensures g'.responses == g.responses
    ensures SameEnd(Serve(Inner(r.app, r.verb), cfg, g, r, None), Serve(Core(r.app, r.verb), cfg, g', r, jwt))
  {
    g', jwt := g, None;
    if !r.app.authDisabled && r.verb != OPTIONS {
      var ruling := Rule(cfg, r.app.name, Identify(cfg, g, r));
      g' := g.(expiries := ExpiriesAfter(cfg, g, r));
      CheckNext(cfg, g, r);
      jwt := if ruling.Allowed? then ruling.jwt else None;
    }
    CoreTouches(cfg, g', r, jwt);
  }

  /** The request is answered by the backend, and this is what is cached then. */
  predicate ByBackend(r: Request, s: Served, responses: ResponseCache.Store) {
    && s.trace != [] && s.trace[|s.trace| - 1].Called? && s.reply == Answered(r.made)
    && s.gateway.responses == responses
  }

  /** The request is answered from the cache, the backend is not called, and the cache stays as it was. */
  predicate ByCache(r: Request, s: Served, responses: ResponseCache.Store) {
    && s.trace != [] && s.trace[|s.trace| - 1] == Looked(true)
    && r.id in responses && s.reply == Answered(responses[r.id]) && s.gateway.responses == responses
  }

  lemma {:induction false} CoreOutcome(cfg: Config, g: Gateway, r: Request, jwt: Option<string>)
    ensures var s, had := Serve(Core(r.app, r.verb), cfg, g, r, jwt), g.responses;
      match r.verb
      case POST | PUT | PATCH | DELETE =>
        ByBackend(r, s, if r.app.caching && r.app.autoFlush then had - {r.id} else had)
      case GET | HEAD | OPTIONS =>
        if !r.app.caching then ByBackend(r, s, had)
        else if r.noCache then ByBackend(r, s, had)
        else if r.id in had then ByCache(r, s, had)
        else ByBackend(r, s, if r.made.status < 400 then had[r.id := r.made] else had)
  {
    assert [Cache][1..] == [] && [Flush][1..] == [];
    assert Serve(Backend, cfg, g, r, jwt) == Served(g, [Called(jwt)], Answered(r.made));
  }

  /**
    Method by method, what an answered request gets: POST, PUT, PATCH and DELETE always reach
    the backend, and leave no entry if the application flushes; GET, HEAD and OPTIONS are
    answered from the cache if the application caches, there is an entry and the request does
    not refuse it, and are kept otherwise if the request allows it and the answer is no error.
   */
  lemma {:induction false} MethodOutcome(cfg: Config, g: Gateway, r: Request)
    requires Step(cfg, g, r).reply.Answered?
    ensures var s, had := Step(cfg, g, r), g.responses - r.evicted;
      match r.verb
      case POST | PUT | PATCH | DELETE =>
        ByBackend(r, s, if r.app.caching && r.app.autoFlush then had - {r.id} else had)
      case GET | HEAD | OPTIONS =>
        if !r.app.caching then ByBackend(r, s, had)
        else if r.noCache then ByBackend(r, s, had)
        else if r.id in had then ByCache(r, s, had)
        else ByBackend(r, s, if r.made.status < 400 then had[r.id := r.made] else had)
  {
    var g', jwt := AnsweredByCore(cfg, g, r);
    CoreOutcome(cfg, g', r, jwt);
    CoreTouches(cfg, g', r, jwt);
  }

  /** A request that is not answered leaves the response cache as it was. */
  lemma {:induction false} RefusedOutcome(cfg: Config, g: Gateway, r: Request)
    requires !Step(cfg, g, r).reply.Answered?
    ensures Step(cfg, g, r).gateway.responses == g.responses - r.evicted
  {
    LimiterFirst(cfg, g, r);
    RouteTower(r.app, r.verb);
    var g1 := Before(g, r).(limits := Limits(cfg, g, r));
    if Admits(cfg, g, r) {
      RefusedInside(cfg, g1, r);
    }
  }

  lemma {:induction false} RefusedInside(cfg: Config, g: Gateway, r: Request)
    requires !Serve(Inner(r.app, r.verb), cfg, g, r, None).reply.Answered?
    ensures Serve(Inner(r.app, r.verb), cfg, g, r, None).gateway.responses == g.responses
  {
    var ruling := Rule(cfg, r.app.name, Identify(cfg, g, r));
    CoreAnswers(cfg, g, r, None);
    CoreAnswers(cfg, g.(expiries := ExpiriesAfter(cfg, g, r)), r, if ruling.Allowed? then ruling.jwt else None);
  }
}
