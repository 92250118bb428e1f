/**
  The decorator stack of an application: which behaviours wrap its handlers
  (dispatcher/no_integration_dispatcher.go, dispatcher/behaviours.go), what the
  authentication decorator decides (auth/rest.go), and what a request may reach.
 */
module Stack {
  import opened Results
  import RateLimit
  import ExpiryCache
  import ResponseCache

  // ------------------------------------------------------------------ building the stack

  datatype App = App(name: string, caching: bool, autoFlush: bool, authDisabled: bool, rateLimiting: bool)

  datatype Behaviour = Caching | Authentication | RateLimiting

  datatype Handler =
    | Backend
    | Cached(inner: Handler)
    | Flushing(inner: Handler)
    | Authenticated(inner: Handler)
    | Limited(inner: Handler)

  /** The three `Apply` methods: the safe and the unsafe handler, each wrapped or left alone. */
  function Apply(b: Behaviour, app: App, safe: Handler, unsafe: Handler): (Handler, Handler) {
    match b
    case Caching =>
      if !app.caching then (safe, unsafe)
      else (Cached(safe), if app.autoFlush then Flushing(unsafe) else unsafe)
    case Authentication =>
      if app.authDisabled then (safe, unsafe) else (Authenticated(safe), Authenticated(unsafe))
    case RateLimiting =>
      if app.rateLimiting then (Limited(safe), Limited(unsafe)) else (safe, unsafe)
  }

  datatype Layer = Cache | Flush | Auth | Limit

  /** The handler with the given layers, the outermost first. */
  function Tower(layers: seq<Layer>): Handler {
    if layers == [] then Backend
    else
      var inner := Tower(layers[1..]);
      match layers[0]
      case Cache => Cached(inner)
      case Flush => Flushing(inner)
      case Auth => Authenticated(inner)
      case Limit => Limited(inner)
  }

  /** The layer that a behaviour contributes, if any. */
  function Added(b: Behaviour, app: App, safe: bool): seq<Layer> {
    match b
    case Caching => if !app.caching then [] else if safe then [Cache] else if app.autoFlush then [Flush] else []
    case Authentication => if app.authDisabled then [] else [Auth]
    case RateLimiting => if app.rateLimiting then [Limit] else []
  }

  function Stacked(behaviours: seq<Behaviour>, app: App, safe: bool): seq<Layer> {
    if behaviours == [] then []
    else Stacked(behaviours[1..], app, safe) + Added(behaviours[0], app, safe)
  }

  /** Behaviours that are added later wrap those that are added earlier. */
  lemma {:induction false} LastAddedOutermost(earlier: seq<Behaviour>, later: seq<Behaviour>, app: App, safe: bool)
    ensures Stacked(earlier + later, app, safe) == Stacked(later, app, safe) + Stacked(earlier, app, safe)
  {
    if earlier == [] {
      assert earlier + later == later;
    } else {
      assert (earlier + later)[1..] == earlier[1..] + later;
      LastAddedOutermost(earlier[1..], later, app, safe);
    }
  }

  lemma {:induction false} StackedSnoc(behaviours: seq<Behaviour>, i: nat, app: App, safe: bool)
    requires i < |behaviours|
    ensures Stacked(behaviours[..i + 1], app, safe) ==
            Added(behaviours[i], app, safe) + Stacked(behaviours[..i], app, safe)
  {
    var b := behaviours[i];
    assert behaviours[..i + 1] == behaviours[..i] + [b] && [b][1..] == [];
    LastAddedOutermost(behaviours[..i], [b], app, safe);
  }

  /** Applying the next behaviour puts its layers on top. */
  lemma {:induction false} ApplyAddsLayers(behaviours: seq<Behaviour>, i: nat, app: App)
    requires i < |behaviours|
    ensures var done, more := behaviours[..i], behaviours[..i + 1];
      Apply(behaviours[i], app, Tower(Stacked(done, app, true)), Tower(Stacked(done, app, false))) ==
        (Tower(Stacked(more, app, true)), Tower(Stacked(more, app, false)))
  {
    StackedSnoc(behaviours, i, app, true);
    StackedSnoc(behaviours, i, app, false);
    ApplyAdds(behaviours[i], app, Stacked(behaviours[..i], app, true), Stacked(behaviours[..i], app, false));
  }

  lemma {:induction false} ApplyAdds(b: Behaviour, app: App, safe: seq<Layer>, unsafe: seq<Layer>)
    ensures Apply(b, app, Tower(safe), Tower(unsafe)) ==
            (Tower(Added(b, app, true) + safe), Tower(Added(b, app, false) + unsafe))
  {
    assert forall layer: Layer, rest: seq<Layer> :: ([layer] + rest)[1..] == rest;
    assert [] + safe == safe && [] + unsafe == unsafe;
  }

  /** The loop that wraps the handlers of a route. */
  method Wrap(behaviours: seq<Behaviour>, app: App) returns (safe: Handler, unsafe: Handler)
    ensures safe == Tower(Stacked(behaviours, app, true))
    ensures unsafe == Tower(Stacked(behaviours, app, false))
  {
    safe, unsafe := Backend, Backend;
    for i := 0 to |behaviours|
      invariant safe == Tower(Stacked(behaviours[..i], app, true))
      invariant unsafe == Tower(Stacked(behaviours[..i], app, false))
    {
      ApplyAddsLayers(behaviours, i, app);
      var wrapped := Apply(behaviours[i], app, safe, unsafe);
      safe, unsafe := wrapped.0, wrapped.1;
    }
    assert behaviours[..|behaviours|] == behaviours;
  }

  /** The behaviours in the order in which the dispatcher is given them. */
  const BEHAVIOURS := [Caching, Authentication, RateLimiting]

  datatype Method = GET | HEAD | OPTIONS | POST | PUT | PATCH | DELETE

  predicate IsSafe(m: Method) {
    m == GET || m == HEAD || m == OPTIONS
  }

  /** The layers between a request and the backend of the application. */
  function Route(app: App, m: Method): seq<Layer> {
    Stacked(BEHAVIOURS, app, IsSafe(m))
  }

  lemma {:induction false} RouteLayers(app: App, m: Method)
    ensures Route(app, m) ==
      Added(RateLimiting, app, IsSafe(m)) + Added(Authentication, app, IsSafe(m)) + Added(Caching, app, IsSafe(m))
  {
    var safe := IsSafe(m);
    var limit, auth := Added(RateLimiting, app, safe), Added(Authentication, app, safe);
    var cache := Added(Caching, app, safe);
    assert BEHAVIOURS[1..] == [Authentication, RateLimiting] && [Authentication, RateLimiting][1..] == [RateLimiting];
    assert [RateLimiting][1..] == [] && [] + limit == limit;
    assert Stacked([RateLimiting], app, safe) == limit;
    assert Stacked([Authentication, RateLimiting], app, safe) == limit + auth;
    assert Stacked(BEHAVIOURS, app, safe) == limit + auth + cache;
  }

  // ------------------------------------------------------------------ the authentication decorator

  /** `service` and `url` name the authentication provider; `urls` are the backend URLs by application. */
  datatype Config = Config(
    lim: RateLimit.Limits, verifier: ExpiryCache.Verifier, service: string, url: string, urls: map<string, string>)
  {
    predicate IsProvider(name: string) {
      service == name || (name in urls && urls[name] != "" && url != "" && urls[name] == url)
    }
  }

  /** What `IsAuthenticated` finds out about a request. */
  datatype Identity = Anonymous | Holder(jwt: string, allowed: seq<string>) | Failed | Panicked

  datatype Ruling = Exempt | Allowed(jwt: Option<string>) | Denied | Unavailable | Aborted

  /** A token names the applications that it is for; one that names none is for all of them. */
  predicate MayUse(who: Identity, name: string) {
    who.Holder? && (who.allowed == [] || name in who.allowed)
  }

  function Rule(cfg: Config, name: string, who: Identity): Ruling {
    if who.Failed? then Unavailable
    else if who.Panicked? then Aborted
    else if cfg.IsProvider(name) || MayUse(who, name) then Allowed(if who.Holder? then Some(who.jwt) else None)
    else Denied
  }

  /** The decision of the decorated handler, for a request that is not OPTIONS. */
  method Authorize(cfg: Config, name: string, who: Identity) returns (ruling: Ruling)
    ensures ruling == Rule(cfg, name, who)
  {
    if who.Panicked? {
      return Aborted;
    }
    if who.Failed? {
      return Unavailable;
    }
    var authenticated := who.Holder?;
    var token := if who.Holder? then Some(who.jwt) else None;
    if cfg.service == name || (name in cfg.urls && cfg.urls[name] != "" && cfg.url != "" && cfg.urls[name] == cfg.url) {
      return Allowed(token);
    }
    if !authenticated {
      return Denied;
    }
    if |who.allowed| > 0 {
      for i := 0 to |who.allowed|
        invariant name !in who.allowed[..i]
      {
        if who.allowed[i] == name {
          return Allowed(token);
        }
      }
      return Denied;
    }
    ruling := Allowed(token);
  }

  // ------------------------------------------------------------------ serving a request

  datatype Credentials = NoToken | Unreadable | Token(jwt: string, allowed: seq<string>)

  /**
    A request, what the key source and the backend answer if they are asked, what the caches
    have dropped since the request before, and what other gateways have made of the shared
    counters since.
   */
  datatype Request = Request(
    app: App, verb: Method, rate: RateLimit.Request, credentials: Credentials, key: Option<string>, now: int,
    id: string, noCache: bool, made: ResponseCache.Response, dropped: set<string>, evicted: set<string>,
    drift: RateLimit.Store -> RateLimit.Store)

  /** The state that all applications of a gateway share. */
  datatype Gateway = Gateway(limits: RateLimit.Store, expiries: ExpiryCache.Cache, responses: ResponseCache.Store)

  const INITIAL := Gateway(map[], map[], map[])

  /** What a layer, or the backend, does with a request. `Called` holds the JWT that the backend is given. */
  datatype Event =
    | Counted(verdict: RateLimit.Verdict)
    | Checked(ruling: Ruling)
    | Looked(hit: bool)
    | Purged
    | Called(jwt: Option<string>)

  datatype Reply = Refused(status: int) | Answered(response: ResponseCache.Response) | Dropped

  datatype Served = Served(gateway: Gateway, trace: seq<Event>, reply: Reply) {
    function Preceded(e: Event): Served {
      this.(trace := [e] + trace)
    }
  }

  function Identify(cfg: Config, g: Gateway, r: Request): Identity {
    match r.credentials
    case NoToken => Anonymous
    case Unreadable => Failed
    case Token(jwt, allowed) =>
      match ExpiryCache.Decide(cfg.verifier, g.expiries, jwt, r.key, r.now)
      case Accepted => Holder(jwt, allowed)
      case Rejected(error) => if error then Failed else Anonymous
      case Crashed => Panicked
  }

  function ExpiriesAfter(cfg: Config, g: Gateway, r: Request): ExpiryCache.Cache {
    if r.credentials.Token? then ExpiryCache.CacheAfter(cfg.verifier, g.expiries, r.credentials.jwt, r.key, r.now)
    else g.expiries
  }

  function Refusal(ruling: Ruling): Reply {
    match ruling
    case Denied => Refused(403)
    case Unavailable => Refused(503)
    case _ => Dropped
  }

  /** The handler at work; `jwt` is what an authentication layer has written into the request. */
  function Serve(h: Handler, cfg: Config, g: Gateway, r: Request, jwt: Option<string>): Served {
    match h
    case Backend => Served(g, [Called(jwt)], Answered(r.made))
    case Limited(inner) =>
      var g' := g.(limits := RateLimit.After(g.limits, cfg.lim, r.rate));
      var v := RateLimit.Decide(g.limits, cfg.lim, r.rate);
      if v.Pass? then Serve(inner, cfg, g', r, jwt).Preceded(Counted(v))
      else Served(g', [Counted(v)], Refused(if v.TooMany? then 429 else 503))
    case Authenticated(inner) =>
      if r.verb == OPTIONS then Serve(inner, cfg, g, r, jwt).Preceded(Checked(Exempt))
      else
        var g' := g.(expiries := ExpiriesAfter(cfg, g, r));
        var ruling := Rule(cfg, r.app.name, Identify(cfg, g, r));
        if ruling.Allowed?
        then Serve(inner, cfg, g', r, if ruling.jwt.Some? then ruling.jwt else jwt).Preceded(Checked(ruling))
        else Served(g', [Checked(ruling)], Refusal(ruling))
    case Cached(inner) =>
      if !r.noCache && r.id in g.responses then Served(g, [Looked(true)], Answered(g.responses[r.id]))
      else
        var s := Serve(inner, cfg, g, r, jwt).Preceded(Looked(false));
        if !r.noCache && s.reply.Answered? && s.reply.response.status < 400
        then s.(gateway := s.gateway.(responses := s.gateway.responses[r.id := s.reply.response]))
        else s
    case Flushing(inner) =>
      Serve(inner, cfg, g.(responses := g.responses - {r.id}), r, jwt).Preceded(Purged)
  }

  /** The state in which the layers of a request find the gateway. */
  function Before(g: Gateway, r: Request): Gateway {
    g.(expiries := g.expiries - r.dropped, responses := g.responses - r.evicted)
  }

  function Step(cfg: Config, g: Gateway, r: Request): Served {
    Serve(Tower(Route(r.app, r.verb)), cfg, Before(g, r), r, None)
  }

  /** The cache's two decorators, on the backend itself, are those of the cache alone. */
  lemma {:induction false} CacheLayersAgree(cfg: Config, g: Gateway, r: Request, jwt: Option<string>)
    ensures var s := Serve(Cached(Backend), cfg, g, r, jwt);
      && s.reply == Answered(ResponseCache.Answer(g.responses, r.id, r.noCache, r.made))
      && s.gateway.responses == ResponseCache.StoreAfter(g.responses, r.id, r.noCache, r.made)
    ensures Serve(Flushing(Backend), cfg, g, r, jwt).gateway.responses == g.responses - {r.id}
  {
    assert Serve(Backend, cfg, g, r, jwt) == Served(g, [Called(jwt)], Answered(r.made));
  }

  // ------------------------------------------------------------------ any stack: events follow the layers

  predicate EventOf(layer: Layer, e: Event) {
    match layer
    case Cache => e.Looked?
    case Flush => e.Purged?
    case Auth => e.Checked?
    case Limit => e.Counted?
  }

  /** Whether a layer hands the request on. */
  predicate Passes(e: Event) {
    match e
    case Counted(v) => v.Pass?
    case Checked(ruling) => ruling.Exempt? || ruling.Allowed?
    case Looked(hit) => !hit
    case Purged => true
    case Called(_) => false
  }

  /** The i-th event is that of the i-th layer, or of the backend below all layers. */
  ghost predicate Follows(layers: seq<Layer>, trace: seq<Event>) {
    && 0 < |trace| <= |layers| + 1
    && (forall i | 0 <= i < |trace| && i < |layers| :: EventOf(layers[i], trace[i]))
    && (|trace| == |layers| + 1 ==> trace[|layers|].Called?)
    && (forall i | 0 <= i < |trace| :: Passes(trace[i]) <==> i < |trace| - 1)
  }

  /** Every layer acts once, in order, and the next one acts iff it passes the request on. */
  lemma {:induction false} TraceFollowsLayers(
    layers: seq<Layer>, cfg: Config, g: Gateway, r: Request, jwt: Option<string>)
    ensures Follows(layers, Serve(Tower(layers), cfg, g, r, jwt).trace)
  {
    if layers != [] {
      var rest := layers[1..];
      var trace := Serve(Tower(layers), cfg, g, r, jwt).trace;
      if |trace| != 1 || Passes(trace[0]) {
        var g', jwt' := Below(layers, cfg, g, r, jwt);
        TraceFollowsLayers(rest, cfg, g', r, jwt');
        assert trace[1..] == Serve(Tower(rest), cfg, g', r, jwt').trace;
        assert forall i | 1 <= i < |trace| :: trace[i] == trace[1..][i - 1];
        assert forall i | 1 <= i < |layers| :: layers[i] == rest[i - 1];
      }
    }
  }

  /** What the first layer hands to the others, when it passes the request on. */
  lemma {:induction false} Below(
    layers: seq<Layer>, cfg: Config, g: Gateway, r: Request, jwt: Option<string>)
    returns (g': Gateway, jwt': Option<string>)
    requires layers != []
    requires var trace := Serve(Tower(layers), cfg, g, r, jwt).trace; |trace| != 1 || Passes(trace[0])
    ensures var trace := Serve(Tower(layers), cfg, g, r, jwt).trace;
      && trace == [trace[0]] + Serve(Tower(layers[1..]), cfg, g', r, jwt').trace
      && EventOf(layers[0], trace[0]) && Passes(trace[0])
  {
    g', jwt' := g, jwt;
    match layers[0]
    case Limit => g' := g.(limits := RateLimit.After(g.limits, cfg.lim, r.rate));
    case Auth =>
      if r.verb != OPTIONS {
        g' := g.(expiries := ExpiriesAfter(cfg, g, r));
        var ruling := Rule(cfg, r.app.name, Identify(cfg, g, r));
        jwt' := if ruling.Allowed? && ruling.jwt.Some? then ruling.jwt else jwt;
      }
    case Cache =>
    case Flush => g' := g.(responses := g.responses - {r.id});
  }

  // ------------------------------------------------------------------ which stacks are guarded

  predicate IsTouch(e: Event) {
    e.Looked? || e.Purged? || e.Called?
  }

  /** Whether a request reached the response cache or the backend. */
  ghost predicate Touched(trace: seq<Event>) {
    exists i | 0 <= i < |trace| :: IsTouch(trace[i])
  }

  ghost predicate AllowedBefore(trace: seq<Event>, i: nat)
    requires i <= |trace|
  {
    exists k | 0 <= k < i :: trace[k].Checked? && trace[k].ruling.Allowed?
  }

  /** From this state, a request other than OPTIONS reaches the response cache and the backend only after a check. */
  ghost predicate GuardsFrom(layers: seq<Layer>, g: Gateway) {
    forall cfg: Config, r: Request, jwt: Option<string>, i: nat |
      r.verb != OPTIONS && GuardedTouch(layers, cfg, g, r, jwt, i) ::
      AllowedBefore(Serve(Tower(layers), cfg, g, r, jwt).trace, i)
  }

  ghost predicate GuardedTouch(layers: seq<Layer>, cfg: Config, g: Gateway, r: Request, jwt: Option<string>, i: nat) {
    var trace := Serve(Tower(layers), cfg, g, r, jwt).trace;
    i < |trace| && IsTouch(trace[i])
  }

  /** Only rate limiting stands outside authentication. */
  predicate AuthFirst(layers: seq<Layer>) {
    layers != [] && (layers[0] == Auth || (layers[0] == Limit && AuthFirst(layers[1..])))
  }

  lemma {:induction false} AuthFirstAt(layers: seq<Layer>) returns (k: nat)
    requires AuthFirst(layers)
    ensures k < |layers| && layers[k] == Auth && forall i | 0 <= i < k :: layers[i] == Limit
  {
    if layers[0] == Auth {
      k := 0;
    } else {
      var j := AuthFirstAt(layers[1..]);
      k := j + 1;
      assert forall i | 1 <= i <= k :: layers[i] == layers[1..][i - 1];
    }
  }

  /** The event of an authentication layer is no exemption, unless the request is OPTIONS. */
  lemma {:induction false} NoExemption(
    layers: seq<Layer>, cfg: Config, g: Gateway, r: Request, jwt: Option<string>, i: nat)
    requires r.verb != OPTIONS && i < |Serve(Tower(layers), cfg, g, r, jwt).trace|
    ensures Serve(Tower(layers), cfg, g, r, jwt).trace[i] != Checked(Exempt)
  {
    var trace := Serve(Tower(layers), cfg, g, r, jwt).trace;
    if i > 0 && layers != [] {
      var g', jwt' := Below(layers, cfg, g, r, jwt);
      NoExemption(layers[1..], cfg, g', r, jwt', i - 1);
      assert trace[i] == trace[1..][i - 1];
    }
  }

  /** The bucket of the client, or the one that would be opened, has more than `k` tokens. */
  ghost predicate Room(cfg: Config, g: Gateway, r: Request, k: nat) {
    var key := RateLimit.BucketKey(r.rate.client);
    && cfg.lim.Valid() && cfg.lim.window.Some? && r.rate.link == Up
    && k < if RateLimit.Present(g.limits, key, r.rate.time, r.rate.tie) then g.limits[key].value else cfg.lim.burst
  }

  lemma {:induction false} RoomLeft(cfg: Config, g: Gateway, r: Request, k: nat)
    requires k > 0 && Room(cfg, g, r, k)
    ensures RateLimit.Decide(g.limits, cfg.lim, r.rate).Pass?
    ensures Room(cfg, g.(limits := RateLimit.After(g.limits, cfg.lim, r.rate)), r, k - 1)
  {
  }

  /** Without authentication on top, a request with tokens to spare gets through unchecked. */
  lemma {:induction false} Unguarded(layers: seq<Layer>, cfg: Config, g: Gateway, r: Request, jwt: Option<string>)
    returns (i: nat)
    requires !AuthFirst(layers) && Room(cfg, g, r, |layers|)
    ensures GuardedTouch(layers, cfg, g, r, jwt, i) && !AllowedBefore(Serve(Tower(layers), cfg, g, r, jwt).trace, i)
    decreases layers
  {
    if layers == [] || layers[0] != Limit {
      i := 0;
    } else {
      var g' := g.(limits := RateLimit.After(g.limits, cfg.lim, r.rate));
      RoomLeft(cfg, g, r, |layers|);
      var j := Unguarded(layers[1..], cfg, g', r, jwt);
      i := j + 1;
      var trace, below := Serve(Tower(layers), cfg, g, r, jwt).trace, Serve(Tower(layers[1..]), cfg, g', r, jwt).trace;
      assert trace == [Counted(RateLimit.Decide(g.limits, cfg.lim, r.rate))] + below;
      assert forall k | 1 <= k < |trace| :: trace[k] == below[k - 1];
    }
  }

  /**
    Order is important: of all stacks, exactly those are guarded in which nothing but rate
    limiting stands outside authentication. Any other lets a request through to a gateway
    that has just started, and these do in no state.
   */
  lemma {:induction false} GuardedExactly(layers: seq<Layer>)
    ensures GuardsFrom(layers, INITIAL) <==> AuthFirst(layers)
    ensures (forall g :: GuardsFrom(layers, g)) <==> AuthFirst(layers)
  {
    if AuthFirst(layers) {
      forall g: Gateway, cfg: Config, r: Request, jwt: Option<string>, i: nat |
        r.verb != OPTIONS && GuardedTouch(layers, cfg, g, r, jwt, i)
        ensures AllowedBefore(Serve(Tower(layers), cfg, g, r, jwt).trace, i)
      {
        GuardsTouch(layers, cfg, g, r, jwt, i);
      }
    } else {
      var verifier := ExpiryCache.Verifier((_, _) => false, _ => ExpiryCache.Claims(0, 0, 0));
      var cfg := Config(RateLimit.Limits(|layers| + 1, Some(1)), verifier, "", "", map[]);
      var r := Request(App("", true, true, false, true), GET, RateLimit.Request("", 0, true, Up), NoToken, None, 0,
                       "", true, ResponseCache.Response(200, map[], ""), {}, {}, s => s);
      var i := Unguarded(layers, cfg, INITIAL, r, None);
      assert !GuardsFrom(layers, INITIAL);
    }
  }

  lemma {:induction false} GuardsTouch(
    layers: seq<Layer>, cfg: Config, g: Gateway, r: Request, jwt: Option<string>, i: nat)
    requires AuthFirst(layers) && r.verb != OPTIONS && GuardedTouch(layers, cfg, g, r, jwt, i)
    ensures AllowedBefore(Serve(Tower(layers), cfg, g, r, jwt).trace, i)
  {
    var trace := Serve(Tower(layers), cfg, g, r, jwt).trace;
    TraceFollowsLayers(layers, cfg, g, r, jwt);
    var k := AuthFirstAt(layers);
    assert i < |layers| ==> EventOf(layers[i], trace[i]);
    assert k < i;
    assert EventOf(layers[k], trace[k]) && Passes(trace[k]);
    NoExemption(layers, cfg, g, r, jwt, k);
  }

  // ------------------------------------------------------------------ the configured stack

  /** The handler inside rate limiting and authentication. */
  function Core(app: App, m: Method): Handler {
    Tower(Added(Caching, app, IsSafe(m)))
  }

  function Inner(app: App, m: Method): Handler {
    if app.authDisabled then Core(app, m) else Authenticated(Core(app, m))
  }

  lemma {:induction false} RouteTower(app: App, m: Method)
    ensures Tower(Route(app, m)) == if app.rateLimiting then Limited(Inner(app, m)) else Inner(app, m)
  {
    RouteLayers(app, m);
    var core := Added(Caching, app, IsSafe(m));
    var inner := Added(Authentication, app, IsSafe(m)) + core;
    assert Tower(inner) == Inner(app, m) by {
      assert [] + core == core && ([Auth] + core)[1..] == core;
    }
    assert Route(app, m) == Added(RateLimiting, app, IsSafe(m)) + inner;
    assert [] + inner == inner && ([Limit] + inner)[1..] == inner;
  }

  lemma {:induction false} CoreTouches(cfg: Config, g: Gateway, r: Request, jwt: Option<string>)
    ensures var s := Serve(Core(r.app, r.verb), cfg, g, r, jwt);
      && s.trace != [] && s.gateway.limits == g.limits && (forall i | 0 <= i < |s.trace| :: IsTouch(s.trace[i]))
      && forall e | e in s.trace && e.Called? :: e.jwt == jwt
  {
    assert [Cache][1..] == [] && [Flush][1..] == [];
  }

  lemma {:induction false} InnerNeverCounts(cfg: Config, g: Gateway, r: Request, jwt: Option<string>)
    ensures var s := Serve(Inner(r.app, r.verb), cfg, g, r, jwt);
      s.gateway.limits == g.limits && forall i | 0 <= i < |s.trace| :: !s.trace[i].Counted?
  {
    var ruling := Rule(cfg, r.app.name, Identify(cfg, g, r));
    if r.app.authDisabled || r.verb == OPTIONS {
      CoreTouches(cfg, g, r, jwt);
    } else if ruling.Allowed? {
      var g' := g.(expiries := ExpiriesAfter(cfg, g, r));
      CoreTouches(cfg, g', r, if ruling.jwt.Some? then ruling.jwt else jwt);
    }
  }

  /** Authentication is on, and the request is subject to it. */
  predicate Subject(r: Request) {
    !r.app.authDisabled && r.verb != OPTIONS
  }

  /** And the application is not the authentication provider, which anyone may use. */
  predicate Protected(cfg: Config, r: Request) {
    Subject(r) && !cfg.IsProvider(r.app.name)
  }

  /** The limiter, if there is one, lets the request through. */
  predicate Admits(cfg: Config, g: Gateway, r: Request) {
    r.app.rateLimiting ==> RateLimit.Decide(g.limits, cfg.lim, r.rate).Pass?
  }

  /** What the limiter, if there is one, does to the counters and leaves in the trace. */
  function Limits(cfg: Config, g: Gateway, r: Request): RateLimit.Store {
    if r.app.rateLimiting then RateLimit.After(g.limits, cfg.lim, r.rate) else g.limits
  }

  function Count(cfg: Config, g: Gateway, r: Request): seq<Event> {
    if r.app.rateLimiting then [Counted(RateLimit.Decide(g.limits, cfg.lim, r.rate))] else []
  }

  /** The decision of the authentication decorator. */
  function RulingOn(cfg: Config, g: Gateway, r: Request): Ruling {
    Rule(cfg, r.app.name, Identify(cfg, Before(g, r), r))
  }

  /** The state in which the core finds the gateway when a request has been let through. */
  function Passed(cfg: Config, g: Gateway, r: Request): Gateway {
    Before(g, r).(limits := Limits(cfg, g, r), expiries := ExpiriesAfter(cfg, Before(g, r), r))
  }

  /** What the limiter, if there is one, makes of a request. */
  lemma {:induction false} LimiterFirst(cfg: Config, g: Gateway, r: Request)
    ensures var s := Step(cfg, g, r);
      if !Admits(cfg, g, r) then
        s.trace == Count(cfg, g, r) && !s.reply.Answered? && s.gateway == Before(g, r).(limits := Limits(cfg, g, r))
      else
        var inner := Serve(Inner(r.app, r.verb), cfg, Before(g, r).(limits := Limits(cfg, g, r)), r, None);
        s.trace == Count(cfg, g, r) + inner.trace && s.gateway == inner.gateway && s.reply == inner.reply
  {
    RouteTower(r.app, r.verb);
    var g0 := Before(g, r);
    assert g0.(limits := g0.limits) == g0;
  }

  /** What the authentication decorator makes of a request. */
  lemma {:induction false} CheckNext(cfg: Config, g: Gateway, r: Request)
    requires Subject(r)
    ensures var s, ruling := Serve(Inner(r.app, r.verb), cfg, g, r, None), Rule(cfg, r.app.name, Identify(cfg, g, r));
      if !ruling.Allowed? then s.trace == [Checked(ruling)] && s.reply == Refusal(ruling)
      else
        var g' := g.(expiries := ExpiriesAfter(cfg, g, r));
        s == Serve(Core(r.app, r.verb), cfg, g', r, ruling.jwt).Preceded(Checked(ruling))
  {
  }

  /** What a request that is subject to authentication goes through. */
  lemma {:induction false} SubjectStep(cfg: Config, g: Gateway, r: Request)
    requires Subject(r)
    ensures var s, ruling := Step(cfg, g, r), RulingOn(cfg, g, r);
      if !Admits(cfg, g, r) then s.trace == Count(cfg, g, r) && !s.reply.Answered?
      else if !ruling.Allowed? then s.trace == Count(cfg, g, r) + [Checked(ruling)] && s.reply == Refusal(ruling)
      else
        var core := Serve(Core(r.app, r.verb), cfg, Passed(cfg, g, r), r, ruling.jwt);
        && s.trace == Count(cfg, g, r) + [Checked(ruling)] + core.trace
        && s.gateway == core.gateway && s.reply == core.reply
  {
    LimiterFirst(cfg, g, r);
    var g1 := Before(g, r).(limits := Limits(cfg, g, r));
    CheckNext(cfg, g1, r);
    assert Identify(cfg, g1, r) == Identify(cfg, Before(g, r), r);
    assert g1.(expiries := ExpiriesAfter(cfg, g1, r)) == Passed(cfg, g, r);
  }

  /**
    A protected request reaches the response cache or the backend exactly if it takes a
    positive token, where the application is rate-limited, and holds an accepted JWT that is
    for this application; both are settled before.
   */
  lemma {:induction false} Gate(cfg: Config, g: Gateway, r: Request)
    requires Protected(cfg, r)
    ensures var s, who, n := Step(cfg, g, r), Identify(cfg, Before(g, r), r), |Count(cfg, g, r)|;
      && (Touched(s.trace) <==> Admits(cfg, g, r) && MayUse(who, r.app.name))
      && (forall i | 0 <= i < |s.trace| && IsTouch(s.trace[i]) ::
            && i > n && s.trace[n] == Checked(Allowed(Some(who.jwt)))
            && (r.app.rateLimiting ==>
                  n == 1 && s.trace[0].Counted? && s.trace[0].verdict.Pass? && s.trace[0].verdict.remaining > 0))
      && (s.reply.Answered? ==> Touched(s.trace))
  {
    SubjectStep(cfg, g, r);
    var s, who, n := Step(cfg, g, r), Identify(cfg, Before(g, r), r), |Count(cfg, g, r)|;
    if Admits(cfg, g, r) && MayUse(who, r.app.name) {
      CoreTouches(cfg, Passed(cfg, g, r), r, Some(who.jwt));
      assert s.trace[n + 1] == Serve(Core(r.app, r.verb), cfg, Passed(cfg, g, r), r, Some(who.jwt)).trace[0];
    }
  }

  lemma {:induction false} CoreAnswers(cfg: Config, g: Gateway, r: Request, jwt: Option<string>)
    ensures Serve(Core(r.app, r.verb), cfg, g, r, jwt).reply.Answered?
  {
    assert [Cache][1..] == [] && [Flush][1..] == [];
  }

  /**
    A JWT that does not verify, expired or forged, is answered with 503 unless its expiry is
    cached, by every application that authenticates, with rate limiting or without.
   */
  lemma {:induction false} UnverifiedUnavailable(cfg: Config, g: Gateway, r: Request)
    requires Subject(r) && Admits(cfg, g, r) && r.credentials.Token?
    ensures var jwt, reply := r.credentials.jwt, Step(cfg, g, r).reply;
      if jwt in Before(g, r).expiries then reply != Refused(503)
      else !ExpiryCache.Verifies(cfg.verifier, jwt, r.key, r.now) <==> reply == Refused(503)
  {
    SubjectStep(cfg, g, r);
    var ruling := RulingOn(cfg, g, r);
    if ruling.Allowed? {
      CoreAnswers(cfg, Passed(cfg, g, r), r, ruling.jwt);
    }
  }

  /** Every request to a rate-limited application is counted once, and costs one token. */
  lemma {:induction false} ChargedOnce(cfg: Config, g: Gateway, r: Request)
    requires r.app.rateLimiting
    ensures var s, key := Step(cfg, g, r), RateLimit.BucketKey(r.rate.client);
      && s.gateway.limits == RateLimit.After(g.limits, cfg.lim, r.rate)
      && s.trace[0] == Counted(RateLimit.Decide(g.limits, cfg.lim, r.rate))
      && (forall i | 1 <= i < |s.trace| :: !s.trace[i].Counted?)
      && (r.rate.link == Up && cfg.lim.Valid() && cfg.lim.window.Some? ==>
            var present := RateLimit.Present(g.limits, key, r.rate.time, r.rate.tie);
            && key in s.gateway.limits
            && s.gateway.limits[key].value == (if present then g.limits[key].value else cfg.lim.burst) - 1)
  {
    RouteTower(r.app, r.verb);
    InnerNeverCounts(cfg, Before(g, r).(limits := RateLimit.After(g.limits, cfg.lim, r.rate)), r, None);
  }
}
