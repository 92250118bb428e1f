/**
  The gateway in service: what holds of every run over all applications that share a rate
  limiter, an authentication handler and a response cache.
 */
module Service {
  import opened Results
  import RateLimit
  import ExpiryCache
  import ResponseCache
  import opened Stack

  // ------------------------------------------------------------------ whole runs

  /** The state that request `i` finds, when a gateway serves `run` beside others. */
  function GatewayAt(cfg: Config, run: seq<Request>, i: nat): Gateway
    requires i <= |run|
    decreases i, 1
  {
    if i < |run| then Drifted(LeftAt(cfg, run, i), run[i]) else LeftAt(cfg, run, i)
  }

  function Drifted(g: Gateway, r: Request): Gateway {
    g.(limits := r.drift(g.limits))
  }

  /** The state that the request before has left. */
  function LeftAt(cfg: Config, run: seq<Request>, i: nat): Gateway
    requires i <= |run|
    decreases i, 0
  {
    if i == 0 then INITIAL else ServedAt(cfg, run, i - 1).gateway
  }

  function ServedAt(cfg: Config, run: seq<Request>, i: nat): Served
    requires i < |run|
    decreases i, 2
  {
    Step(cfg, GatewayAt(cfg, run, i), run[i])
  }

  /** Between requests only the counters change. */
  lemma {:induction false} NextGateway(cfg: Config, run: seq<Request>, i: nat)
    requires 0 < i <= |run|
    ensures var left := Step(cfg, GatewayAt(cfg, run, i - 1), run[i - 1]).gateway;
      LeftAt(cfg, run, i) == left && GatewayAt(cfg, run, i) == left.(limits := GatewayAt(cfg, run, i).limits)
  {
    assert LeftAt(cfg, run, i) == ServedAt(cfg, run, i - 1).gateway;
  }

  /** What the limiter sees of a request. */
  function Charge(r: Request): RateLimit.Run {
    if r.app.rateLimiting then [r.rate] else []
  }

  /** What other gateways have charged before each request, and what the drift is due to. */
  type Charges = seq<RateLimit.Run>

  ghost predicate Drifts(cfg: Config, run: seq<Request>, others: Charges) {
    |others| == |run| && forall i | 0 <= i < |run| :: DriftsAt(cfg, LeftAt(cfg, run, i), run[i], others[i])
  }

  ghost predicate DriftsAt(cfg: Config, g: Gateway, r: Request, other: RateLimit.Run) {
    r.drift(g.limits) == RateLimit.StoreAfter(g.limits, cfg.lim, other)
  }

  /** What the limiter sees of the first `n` requests here, and of all others among them. */
  function Charged(run: seq<Request>, others: Charges, n: nat): RateLimit.Run
    requires n <= |run| == |others|
  {
    if n == 0 then [] else Charged(run, others, n - 1) + (others[n - 1] + Charge(run[n - 1]))
  }

  predicate Counts(r: RateLimit.Request, client: string, from: int, until: int) {
    r.client == client && from <= r.time < until
  }

  /** A request of the client in [from, until) that reaches the response cache or a backend behind the limiter. */
  ghost predicate IsLoad(cfg: Config, g: Gateway, r: Request, client: string, from: int, until: int) {
    r.app.rateLimiting && Counts(r.rate, client, from, until) && Touched(Step(cfg, g, r).trace)
  }

  /** How many there are among the first `n` requests. */
  ghost function Loads(cfg: Config, run: seq<Request>, n: nat, client: string, from: int, until: int): nat
    requires n <= |run|
  {
    if n == 0 then 0
    else
      Loads(cfg, run, n - 1, client, from, until)
      + if IsLoad(cfg, GatewayAt(cfg, run, n - 1), run[n - 1], client, from, until) then 1 else 0
  }

  /** The limiter on one run after another. */
  lemma {:induction false} LimiterConcat(
    s: RateLimit.Store, lim: RateLimit.Limits, a: RateLimit.Run, b: RateLimit.Run,
    client: string, from: int, until: int)
    ensures RateLimit.StoreAfter(s, lim, a + b) == RateLimit.StoreAfter(RateLimit.StoreAfter(s, lim, a), lim, b)
    ensures RateLimit.Admitted(s, lim, a + b, client, from, until) ==
            RateLimit.Admitted(s, lim, a, client, from, until)
            + RateLimit.Admitted(RateLimit.StoreAfter(s, lim, a), lim, b, client, from, until)
    decreases a
  {
    if a == [] {
      assert a + b == b;
    } else {
      assert (a + b)[1..] == a[1..] + b;
      LimiterConcat(RateLimit.After(s, lim, a[0]), lim, a[1..], b, client, from, until);
    }
  }

  /** The limiter on the charge of one request. */
  lemma {:induction false} LimiterOne(
    s: RateLimit.Store, lim: RateLimit.Limits, r: Request, client: string, from: int, until: int)
    ensures RateLimit.StoreAfter(s, lim, Charge(r)) == if r.app.rateLimiting then RateLimit.After(s, lim, r.rate) else s
    ensures var counts := r.app.rateLimiting && Counts(r.rate, client, from, until);
      RateLimit.Admitted(s, lim, Charge(r), client, from, until) ==
        if counts && RateLimit.Decide(s, lim, r.rate).Pass? then 1 else 0
  {
    assert [r.rate][1..] == [];
  }

  /** Requests to other applications leave the counters alone. */
  lemma {:induction false} UnlimitedUncharged(cfg: Config, g: Gateway, r: Request)
    requires !r.app.rateLimiting
    ensures Step(cfg, g, r).gateway.limits == g.limits
  {
    RouteTower(r.app, r.verb);
    InnerNeverCounts(cfg, Before(g, r), r, None);
  }

  /** What is not admitted touches nothing. */
  lemma {:induction false} TouchedAdmitted(cfg: Config, g: Gateway, r: Request)
    requires r.app.rateLimiting && Touched(Step(cfg, g, r).trace)
    ensures RateLimit.Decide(g.limits, cfg.lim, r.rate).Pass?
  {
    RouteTower(r.app, r.verb);
  }

  /** What a limiter makes of the counters, and how much it admits. */
  datatype Meter = Meter(after: (RateLimit.Store, RateLimit.Run) -> RateLimit.Store,
                         admits: (RateLimit.Store, RateLimit.Run) -> nat)

  /** One run after another. */
  ghost predicate Additive(m: Meter) {
    && (forall s :: m.after(s, []) == s && m.admits(s, []) == 0)
    && (forall s, a, b :: Adds(m, s, a, b))
  }

  ghost predicate Adds(m: Meter, s: RateLimit.Store, a: RateLimit.Run, b: RateLimit.Run) {
    && m.after(s, a + b) == m.after(m.after(s, a), b)
    && m.admits(s, a + b) == m.admits(s, a) + m.admits(m.after(s, a), b)
  }

  /** The counters that each request finds, and those that it leaves, `lefts[0]` being the first. */
  ghost predicate Chained(
    m: Meter, run: seq<Request>, others: Charges, lefts: seq<RateLimit.Store>, founds: seq<RateLimit.Store>)
  {
    && |run| == |others| == |founds| && |lefts| == |run| + 1
    && (forall i | 0 <= i < |run| :: founds[i] == m.after(lefts[i], others[i]))
    && (forall i, j | 0 <= i < |run| && j == i + 1 :: lefts[j] == m.after(founds[i], Charge(run[i])))
  }

  /** How much is admitted here. */
  function Here(m: Meter, run: seq<Request>, founds: seq<RateLimit.Store>, n: nat): nat
    requires n <= |run| == |founds|
  {
    if n == 0 then 0 else Here(m, run, founds, n - 1) + m.admits(founds[n - 1], Charge(run[n - 1]))
  }

  /** How much is admitted by other gateways. */
  function Elsewhere(m: Meter, others: Charges, lefts: seq<RateLimit.Store>, n: nat): nat
    requires n <= |others| < |lefts|
  {
    if n == 0 then 0 else Elsewhere(m, others, lefts, n - 1) + m.admits(lefts[n - 1], others[n - 1])
  }

  /** Along a chain, the counters and the admissions are those of all charges together. */
  lemma {:induction false} ChargesExact(
    m: Meter, run: seq<Request>, others: Charges, lefts: seq<RateLimit.Store>, founds: seq<RateLimit.Store>, n: nat)
    requires Additive(m) && Chained(m, run, others, lefts, founds) && n <= |run|
    ensures lefts[n] == m.after(lefts[0], Charged(run, others, n))
    ensures Here(m, run, founds, n) + Elsewhere(m, others, lefts, n) == m.admits(lefts[0], Charged(run, others, n))
  {
    if n > 0 {
      ChargesExact(m, run, others, lefts, founds, n - 1);
      var past, other, charge := Charged(run, others, n - 1), others[n - 1], Charge(run[n - 1]);
      assert Adds(m, lefts[0], past, other + charge) && Adds(m, lefts[n - 1], other, charge);
    }
  }

  /** The rate limiter as a meter for the requests of one client in [from, until). */
  ghost function LimiterMeter(lim: RateLimit.Limits, client: string, from: int, until: int): Meter {
    Meter((s, run) => RateLimit.StoreAfter(s, lim, run),
          (s, run) => RateLimit.Admitted(s, lim, run, client, from, until))
  }

  lemma {:induction false} LimiterAdditive(lim: RateLimit.Limits, client: string, from: int, until: int)
    ensures Additive(LimiterMeter(lim, client, from, until))
  {
    var m := LimiterMeter(lim, client, from, until);
    forall s, a, b
      ensures Adds(m, s, a, b)
    {
      LimiterConcat(s, lim, a, b, client, from, until);
    }
  }

  ghost function Lefts(cfg: Config, run: seq<Request>): seq<RateLimit.Store> {
    seq(|run| + 1, i requires 0 <= i <= |run| => LeftAt(cfg, run, i).limits)
  }

  ghost function Founds(cfg: Config, run: seq<Request>): seq<RateLimit.Store> {
    seq(|run|, i requires 0 <= i < |run| => GatewayAt(cfg, run, i).limits)
  }

  /** One request leaves what its charge makes of the counters that it finds. */
  lemma {:induction false} StepCharges(cfg: Config, g: Gateway, r: Request)
    ensures Step(cfg, g, r).gateway.limits == RateLimit.StoreAfter(g.limits, cfg.lim, Charge(r))
  {
    LimiterOne(g.limits, cfg.lim, r, "", 0, 0);
    if r.app.rateLimiting {
      ChargedOnce(cfg, g, r);
    } else {
      UnlimitedUncharged(cfg, g, r);
    }
  }

  /** In every run the counters are what all charges, here and elsewhere, make of them. */
  lemma {:induction false} LimiterState(
    cfg: Config, run: seq<Request>, others: Charges, client: string, from: int, until: int)
    requires Drifts(cfg, run, others)
    ensures Chained(LimiterMeter(cfg.lim, client, from, until), run, others, Lefts(cfg, run), Founds(cfg, run))
  {
    forall i | 0 <= i < |run|
      ensures Founds(cfg, run)[i] == RateLimit.StoreAfter(Lefts(cfg, run)[i], cfg.lim, others[i])
    {
      assert DriftsAt(cfg, LeftAt(cfg, run, i), run[i], others[i]);
    }
    forall i, j | 0 <= i < |run| && j == i + 1
      ensures Lefts(cfg, run)[j] == RateLimit.StoreAfter(Founds(cfg, run)[i], cfg.lim, Charge(run[i]))
    {
      NextGateway(cfg, run, j);
      StepCharges(cfg, GatewayAt(cfg, run, i), run[i]);
    }
  }

  /** Only what the meter admits is a load. */
  ghost predicate Meters(cfg: Config, m: Meter, client: string, from: int, until: int) {
    forall g, r | IsLoad(cfg, g, r, client, from, until) :: m.admits(g.limits, Charge(r)) > 0
  }

  lemma {:induction false} LimiterMeters(cfg: Config, client: string, from: int, until: int)
    ensures Meters(cfg, LimiterMeter(cfg.lim, client, from, until), client, from, until)
  {
    forall g, r | IsLoad(cfg, g, r, client, from, until)
      ensures LimiterMeter(cfg.lim, client, from, until).admits(g.limits, Charge(r)) > 0
    {
      LimiterOne(g.limits, cfg.lim, r, client, from, until);
      TouchedAdmitted(cfg, g, r);
    }
  }

  /** Only what is admitted here reaches anything behind the limiter. */
  lemma {:induction false} LoadsAdmitted(
    cfg: Config, m: Meter, run: seq<Request>, n: nat, client: string, from: int, until: int)
    requires n <= |run| && Meters(cfg, m, client, from, until)
    ensures Loads(cfg, run, n, client, from, until) <= Here(m, run, Founds(cfg, run), n)
  {
    if n > 0 {
      LoadsAdmitted(cfg, m, run, n - 1, client, from, until);
      assert Founds(cfg, run)[n - 1] == GatewayAt(cfg, run, n - 1).limits;
    }
  }

  /**
    The load that one client can put on the response cache and the backends: in every run,
    whatever the applications, and with any number of gateways on the same counters, fewer than
    twice the quota in any interval of one window, what the others admit included.
   */
  lemma {:induction false} LoadBound(cfg: Config, run: seq<Request>, others: Charges, client: string, from: int)
    requires cfg.lim.Valid() && cfg.lim.window.Some? && Drifts(cfg, run, others)
    requires RateLimit.Ordered(Charged(run, others, |run|))
    ensures var until := from + cfg.lim.window.value;
      Loads(cfg, run, |run|, client, from, until)
      + Elsewhere(LimiterMeter(cfg.lim, client, from, until), others, Lefts(cfg, run), |run|) <=
        if cfg.lim.Quota() == 0 then 0 else 2 * cfg.lim.Quota() - 1
  {
    var until := from + cfg.lim.window.value;
    LimiterMeters(cfg, client, from, until);
    LimiterState(cfg, run, others, client, from, until);
    LimiterAdditive(cfg.lim, client, from, until);
    MeterBound(cfg.lim, Charged(run, others, |run|), client, from);
    LoadsMetered(cfg, LimiterMeter(cfg.lim, client, from, until), run, others, client, from, until);
  }

  /** Loads here and admissions elsewhere are together what the meter admits of all charges. */
  lemma {:induction false} LoadsMetered(
    cfg: Config, m: Meter, run: seq<Request>, others: Charges, client: string, from: int, until: int)
    requires Additive(m) && Meters(cfg, m, client, from, until)
    requires Chained(m, run, others, Lefts(cfg, run), Founds(cfg, run))
    ensures Loads(cfg, run, |run|, client, from, until) + Elsewhere(m, others, Lefts(cfg, run), |run|) <=
            m.admits(INITIAL.limits, Charged(run, others, |run|))
  {
    LoadsAdmitted(cfg, m, run, |run|, client, from, until);
    ChargesExact(m, run, others, Lefts(cfg, run), Founds(cfg, run), |run|);
    assert Lefts(cfg, run)[0] == INITIAL.limits;
  }

  lemma {:induction false} MeterBound(lim: RateLimit.Limits, charged: RateLimit.Run, client: string, from: int)
    requires lim.Valid() && lim.window.Some? && RateLimit.Ordered(charged)
    ensures LimiterMeter(lim, client, from, from + lim.window.value).admits(INITIAL.limits, charged) <=
            if lim.Quota() == 0 then 0 else 2 * lim.Quota() - 1
  {
    RateLimit.SlidingWindow(map[], lim, charged, client, from);
  }

  // ------------------------------------------------------------------ who gets an answer, and where it comes from

  /** A request adds at most its own JWT to the expiry cache. */
  lemma {:induction false} ServeExpiries(h: Handler, cfg: Config, g: Gateway, r: Request, jwt: Option<string>)
    ensures Serve(h, cfg, g, r, jwt).gateway.expiries in {g.expiries, ExpiriesAfter(cfg, g, r)}
    decreases h
  {
    match h
    case Backend =>
    case Limited(inner) => ServeExpiries(inner, cfg, g.(limits := RateLimit.After(g.limits, cfg.lim, r.rate)), r, jwt);
    case Authenticated(inner) =>
      ServeExpiries(inner, cfg, g, r, jwt);
      var g' := g.(expiries := ExpiriesAfter(cfg, g, r));
      var ruling := Rule(cfg, r.app.name, Identify(cfg, g, r));
      assert ExpiriesAfter(cfg, g', r) == g'.expiries;
      ServeExpiries(inner, cfg, g', r, if ruling.Allowed? && ruling.jwt.Some? then ruling.jwt else jwt);
    case Cached(inner) => ServeExpiries(inner, cfg, g, r, jwt);
    case Flushing(inner) => ServeExpiries(inner, cfg, g.(responses := g.responses - {r.id}), r, jwt);
  }

  predicate Presents(r: Request, jwt: string) {
    r.credentials.Token? && r.credentials.jwt == jwt
  }

  lemma {:induction false} ExpiryVerified(cfg: Config, run: seq<Request>, i: nat, jwt: string) returns (j: nat)
    requires i <= |run| && jwt in GatewayAt(cfg, run, i).expiries
    ensures j < i && Presents(run[j], jwt) && ExpiryCache.Verifies(cfg.verifier, jwt, run[j].key, run[j].now)
    ensures GatewayAt(cfg, run, i).expiries[jwt] ==
      if cfg.verifier.Exp(jwt) == 0 then ExpiryCache.Int(0) else ExpiryCache.Int64(cfg.verifier.Exp(jwt))
  {
    var r, g := run[i - 1], GatewayAt(cfg, run, i - 1);
    NextGateway(cfg, run, i);
    var g' := Before(g, r);
    ServeExpiries(Tower(Route(r.app, r.verb)), cfg, g', r, None);
    if jwt in g'.expiries {
      j := ExpiryVerified(cfg, run, i - 1, jwt);
    } else {
      j := i - 1;
    }
  }

  /** An answer is the backend's, or was in the cache under the same identifier; so is what is kept. */
  ghost predicate Sourced(g: Gateway, r: Request, s: Served) {
    && (s.reply.Answered? ==> FromBackend(r, s, s.reply.response) || FromCache(g, r, s.reply.response))
    && forall id | id in s.gateway.responses ::
         || (id in g.responses && s.gateway.responses[id] == g.responses[id])
         || (id == r.id && s.gateway.responses[id].status < 400 && FromBackend(r, s, s.gateway.responses[id]))
  }

  ghost predicate FromCache(g: Gateway, r: Request, x: ResponseCache.Response) {
    r.id in g.responses && x == g.responses[r.id]
  }

  /** Whether a request reached the backend, which is always the last to act. */
  predicate Calls(trace: seq<Event>) {
    trace != [] && trace[|trace| - 1].Called?
  }

  ghost predicate FromBackend(r: Request, s: Served, x: ResponseCache.Response) {
    x == r.made && Calls(s.trace)
  }

  lemma {:induction false} ServeSourced(h: Handler, cfg: Config, g: Gateway, r: Request, jwt: Option<string>)
    ensures Sourced(g, r, Serve(h, cfg, g, r, jwt))
    decreases h
  {
    match h
    case Backend =>
    case Limited(inner) =>
      var g' := g.(limits := RateLimit.After(g.limits, cfg.lim, r.rate));
      ServeSourced(inner, cfg, g', r, jwt);
      PassedOn(g, g', r, Serve(inner, cfg, g', r, jwt), Counted(RateLimit.Decide(g.limits, cfg.lim, r.rate)));
    case Authenticated(inner) =>
      var exempt := r.verb == OPTIONS;
      var g' := if exempt then g else g.(expiries := ExpiriesAfter(cfg, g, r));
      var ruling := if exempt then Exempt else Rule(cfg, r.app.name, Identify(cfg, g, r));
      var jwt' := if ruling.Allowed? && ruling.jwt.Some? then ruling.jwt else jwt;
      ServeSourced(inner, cfg, g', r, jwt');
      PassedOn(g, g', r, Serve(inner, cfg, g', r, jwt'), Checked(ruling));
    case Cached(inner) =>
      ServeSourced(inner, cfg, g, r, jwt);
      var s := Serve(inner, cfg, g, r, jwt);
      PassedOn(g, g, r, s, Looked(false));
      KeptSourced(g, r, s.Preceded(Looked(false)));
    case Flushing(inner) =>
      var g' := g.(responses := g.responses - {r.id});
      ServeSourced(inner, cfg, g', r, jwt);
      PassedOn(g, g', r, Serve(inner, cfg, g', r, jwt), Purged);
  }

  /** A layer that hands a request on, having dropped some responses or none, keeps answers sourced. */
  lemma {:induction false} PassedOn(g: Gateway, g': Gateway, r: Request, s: Served, e: Event)
    requires Sourced(g', r, s) && g'.responses.Keys <= g.responses.Keys
    requires forall id | id in g'.responses :: g'.responses[id] == g.responses[id]
    ensures Sourced(g, r, s.Preceded(e))
  {
    assert s.trace != [] ==> ([e] + s.trace)[|s.trace|] == s.trace[|s.trace| - 1];
  }

  /** Keeping an answer that is no error keeps responses sourced. */
  lemma {:induction false} KeptSourced(g: Gateway, r: Request, s: Served)
    requires Sourced(g, r, s)
    ensures s.reply.Answered? && s.reply.response.status < 400 ==>
      Sourced(g, r, s.(gateway := s.gateway.(responses := s.gateway.responses[r.id := s.reply.response])))
  {
  }

  /** No layer of the handler fills the response cache. */
  predicate Uncached(h: Handler) {
    match h
    case Backend => true
    case Cached(_) => false
    case _ => Uncached(h.inner)
  }

  lemma {:induction false} RouteUncached(app: App, m: Method)
    ensures Uncached(Tower(Route(app, m))) <==> !(IsSafe(m) && app.caching)
  {
    RouteTower(app, m);
    assert [Cache][1..] == [] && [Flush][1..] == [];
  }

  /** Without such a layer no entry is added, and an answer is what the backend made. */
  lemma {:induction false} UncachedServes(h: Handler, cfg: Config, g: Gateway, r: Request, jwt: Option<string>)
    requires Uncached(h)
    ensures var s := Serve(h, cfg, g, r, jwt);
      && (forall id | id in s.gateway.responses :: id in g.responses && s.gateway.responses[id] == g.responses[id])
      && (s.reply.Answered? ==> s.reply.response == r.made)
    decreases h
  {
    match h
    case Backend =>
    case Limited(inner) => UncachedServes(inner, cfg, g.(limits := RateLimit.After(g.limits, cfg.lim, r.rate)), r, jwt);
    case Authenticated(inner) =>
      var exempt := r.verb == OPTIONS;
      var ruling := if exempt then Exempt else Rule(cfg, r.app.name, Identify(cfg, g, r));
      UncachedServes(inner, cfg, if exempt then g else g.(expiries := ExpiriesAfter(cfg, g, r)), r,
                     if ruling.Allowed? && ruling.jwt.Some? then ruling.jwt else jwt);
    case Flushing(inner) => UncachedServes(inner, cfg, g.(responses := g.responses - {r.id}), r, jwt);
  }

  /** An entry was there before, or the backend has just made it for a safe request to a caching application. */
  lemma {:induction false} StepSourced(cfg: Config, g: Gateway, r: Request, id: string)
    requires id in Step(cfg, g, r).gateway.responses
    ensures var s := Step(cfg, g, r);
      || (id in g.responses && s.gateway.responses[id] == g.responses[id])
      || (&& id == r.id && IsSafe(r.verb) && r.app.caching
          && s.gateway.responses[id].status < 400 && FromBackend(r, s, s.gateway.responses[id]))
  {
    var h := Tower(Route(r.app, r.verb));
    RouteUncached(r.app, r.verb);
    if Uncached(h) {
      UncachedServes(h, cfg, Before(g, r), r, None);
    } else {
      ServeSourced(h, cfg, Before(g, r), r, None);
    }
  }

  /** Every cached response was made by the backend, for a safe request for it to a caching application. */
  lemma {:induction false} EntrySourced(cfg: Config, run: seq<Request>, i: nat, id: string) returns (j: nat)
    requires i <= |run| && id in GatewayAt(cfg, run, i).responses
    ensures j < i && run[j].id == id && GatewayAt(cfg, run, i).responses[id].status < 400
    ensures IsSafe(run[j].verb) && run[j].app.caching
    ensures FromBackend(run[j], ServedAt(cfg, run, j), GatewayAt(cfg, run, i).responses[id])
  {
    var g := GatewayAt(cfg, run, i - 1);
    NextGateway(cfg, run, i);
    StepSourced(cfg, g, run[i - 1], id);
    if id in g.responses && g.responses[id] == GatewayAt(cfg, run, i).responses[id] {
      j := EntrySourced(cfg, run, i - 1, id);
    } else {
      j := i - 1;
    }
  }

  /** Every answer in every run was made by the backend, now or at an earlier request with the same identifier. */
  lemma {:induction false} AnswerSourced(cfg: Config, run: seq<Request>, i: nat) returns (j: nat)
    requires i < |run| && ServedAt(cfg, run, i).reply.Answered?
    ensures j <= i && run[j].id == run[i].id
    ensures FromBackend(run[j], ServedAt(cfg, run, j), ServedAt(cfg, run, i).reply.response)
  {
    var r, g := run[i], GatewayAt(cfg, run, i);
    var g' := Before(g, r);
    ServeSourced(Tower(Route(r.app, r.verb)), cfg, g', r, None);
    if FromBackend(r, ServedAt(cfg, run, i), ServedAt(cfg, run, i).reply.response) {
      j := i;
    } else {
      j := EntrySourced(cfg, run, i, r.id);
    }
  }

  /**
    Whole-gateway safety. In every run, whatever the caches drop and however the keys change,
    a protected request that reaches the response cache or the backend presents a JWT that is
    for the application, that has not expired, and that was verified at this request or an
    earlier one; and the backend is given that very JWT.
   */
  lemma {:induction false} OnlyVerifiedReach(cfg: Config, run: seq<Request>, i: nat)
    requires i < |run| && Protected(cfg, run[i]) && Touched(ServedAt(cfg, run, i).trace)
    ensures run[i].credentials.Token? && Admissible(cfg, run[i])
    ensures exists j | 0 <= j <= i :: Vouches(cfg, run[j], run[i].credentials.jwt)
    ensures forall e | e in ServedAt(cfg, run, i).trace && e.Called? :: e.jwt == Some(run[i].credentials.jwt)
  {
    var r, g := run[i], GatewayAt(cfg, run, i);
    Gate(cfg, g, r);
    CalledWith(cfg, g, r);
    var jwt := r.credentials.jwt;
    if jwt in g.expiries && jwt !in r.dropped {
      var j := ExpiryVerified(cfg, run, i, jwt);
      assert Vouches(cfg, run[j], jwt);
    } else {
      assert Vouches(cfg, run[i], jwt);
    }
  }

  /** The JWT is for the application and has not expired. */
  predicate Admissible(cfg: Config, r: Request)
    requires r.credentials.Token?
  {
    && (r.credentials.allowed == [] || r.app.name in r.credentials.allowed)
    && (cfg.verifier.Exp(r.credentials.jwt) == 0 || cfg.verifier.Exp(r.credentials.jwt) > r.now)
  }

  /** At this request the JWT was verified. */
  predicate Vouches(cfg: Config, r: Request, jwt: string) {
    Presents(r, jwt) && ExpiryCache.Verifies(cfg.verifier, jwt, r.key, r.now)
  }

  /** The backend of a protected request is given the JWT of its holder. */
  lemma {:induction false} CalledWith(cfg: Config, g: Gateway, r: Request)
    requires Protected(cfg, r)
    ensures forall e | e in Step(cfg, g, r).trace && e.Called? ::
      r.credentials.Token? && e.jwt == Some(r.credentials.jwt)
  {
    SubjectStep(cfg, g, r);
    var ruling := RulingOn(cfg, g, r);
    if ruling.Allowed? {
      CoreTouches(cfg, Passed(cfg, g, r), r, ruling.jwt);
    }
  }

  // ------------------------------------------------------------------ answers are current

  /**
    The backend answers safe requests from a state per identifier, which only changes when an
    unsafe request with that identifier reaches it.
   */
  ghost predicate Upstream(cfg: Config, run: seq<Request>, backend: seq<ResponseCache.Backend>) {
    && |backend| == |run| + 1
    && (forall i | 0 <= i < |run| && IsSafe(run[i].verb) :: run[i].made == backend[i](run[i].id))
    && (forall i, j | 0 <= i < |run| && j == i + 1 :: Unchanged(run[i], ServedAt(cfg, run, i), backend[i], backend[j]))
  }

  ghost predicate Unchanged(r: Request, s: Served, before: ResponseCache.Backend, after: ResponseCache.Backend) {
    forall id | !(!IsSafe(r.verb) && Calls(s.trace) && id == r.id) :: after(id) == before(id)
  }

  predicate FlushesApp(app: App) {
    app.caching && app.autoFlush
  }

  /** An unsafe request goes to a flushing application if its identifier is one that is cached for some request. */
  predicate Flushes(run: seq<Request>) {
    forall i, k | 0 <= i < |run| && 0 <= k < |run| && run[i].id == run[k].id ::
      !IsSafe(run[i].verb) && IsSafe(run[k].verb) && run[k].app.caching ==> FlushesApp(run[i].app)
  }

  predicate Purges(h: Handler) {
    match h
    case Flushing(inner) => inner.Backend?
    case Limited(inner) => Purges(inner)
    case Authenticated(inner) => Purges(inner)
    case _ => false
  }

  lemma {:induction false} RoutePurges(app: App, m: Method)
    requires !IsSafe(m) && FlushesApp(app)
    ensures Purges(Tower(Route(app, m)))
  {
    RouteTower(app, m);
    assert [Flush][1..] == [];
  }

  /** An unsafe request that reaches the backend through a flushing layer leaves no entry for its identifier. */
  lemma {:induction false} PurgedOnCall(h: Handler, cfg: Config, g: Gateway, r: Request, jwt: Option<string>)
    requires Calls(Serve(h, cfg, g, r, jwt).trace) && Purges(h)
    ensures r.id !in Serve(h, cfg, g, r, jwt).gateway.responses
    decreases h
  {
    match h
    case Flushing(inner) =>
      assert Serve(inner, cfg, g.(responses := g.responses - {r.id}), r, jwt).gateway.responses == g.responses - {r.id};
    case Limited(inner) => PurgedOnCall(inner, cfg, g.(limits := RateLimit.After(g.limits, cfg.lim, r.rate)), r, jwt);
    case Authenticated(inner) =>
      if r.verb == OPTIONS {
        PurgedOnCall(inner, cfg, g, r, jwt);
      } else {
        var ruling := Rule(cfg, r.app.name, Identify(cfg, g, r));
        var jwt' := if ruling.Allowed? && ruling.jwt.Some? then ruling.jwt else jwt;
        PurgedOnCall(inner, cfg, g.(expiries := ExpiriesAfter(cfg, g, r)), r, jwt');
      }
  }

  lemma {:induction false} StepCurrent(
    cfg: Config, g: Gateway, r: Request, before: ResponseCache.Backend, after: ResponseCache.Backend, id: string)
    requires IsSafe(r.verb) ==> r.made == before(r.id)
    requires !IsSafe(r.verb) && id == r.id ==> FlushesApp(r.app)
    requires Unchanged(r, Step(cfg, g, r), before, after)
    requires id in g.responses ==> g.responses[id] == before(id)
    ensures id in Step(cfg, g, r).gateway.responses ==> Step(cfg, g, r).gateway.responses[id] == after(id)
  {
    var h := Tower(Route(r.app, r.verb));
    ServeSourced(h, cfg, Before(g, r), r, None);
    if !IsSafe(r.verb) && id == r.id && Calls(Step(cfg, g, r).trace) {
      RoutePurges(r.app, r.verb);
      PurgedOnCall(h, cfg, Before(g, r), r, None);
    }
  }

  /** What changes an identifier that is cached goes to a flushing application. */
  lemma {:induction false} MustFlush(cfg: Config, run: seq<Request>, i: nat, id: string)
    requires Flushes(run) && 0 < i <= |run| && id in GatewayAt(cfg, run, i).responses
    ensures !IsSafe(run[i - 1].verb) && id == run[i - 1].id ==> FlushesApp(run[i - 1].app)
  {
    var k := EntrySourced(cfg, run, i, id);
  }

  /** What is cached is what the backend would answer now. */
  lemma {:induction false} EntryCurrent(
    cfg: Config, run: seq<Request>, backend: seq<ResponseCache.Backend>, i: nat, id: string)
    requires Upstream(cfg, run, backend) && Flushes(run) && i <= |run| && id in GatewayAt(cfg, run, i).responses
    ensures GatewayAt(cfg, run, i).responses[id] == backend[i](id)
    decreases i
  {
    var r, g := run[i - 1], GatewayAt(cfg, run, i - 1);
    NextGateway(cfg, run, i);
    assert Unchanged(r, ServedAt(cfg, run, i - 1), backend[i - 1], backend[i]);
    if id in g.responses {
      EntryCurrent(cfg, run, backend, i - 1, id);
    }
    MustFlush(cfg, run, i, id);
    StepCurrent(cfg, g, r, backend[i - 1], backend[i], id);
  }

  /**
    In every run, over all applications and under any eviction, a request that is answered at
    all gets what the backend would answer to it at that moment.
   */
  lemma {:induction false} AnswersCurrent(
    cfg: Config, run: seq<Request>, backend: seq<ResponseCache.Backend>, i: nat)
    requires Upstream(cfg, run, backend) && Flushes(run) && i < |run| && ServedAt(cfg, run, i).reply.Answered?
    ensures ServedAt(cfg, run, i).reply.response == run[i].made
  {
    var r, g := run[i], GatewayAt(cfg, run, i);
    var h := Tower(Route(r.app, r.verb));
    RouteUncached(r.app, r.verb);
    if Uncached(h) {
      UncachedServes(h, cfg, Before(g, r), r, None);
    } else {
      ServeSourced(h, cfg, Before(g, r), r, None);
      if r.id in g.responses {
        EntryCurrent(cfg, run, backend, i, r.id);
      }
    }
  }

  // ------------------------------------------------------------------ requests that get through

  function LastOf(trace: seq<Event>): Option<Event> {
    if trace == [] then None else Some(trace[|trace| - 1])
  }

  /** `s` and `s'` differ in what went before only. */
  predicate SameEnd(s: Served, s': Served) {
    s.reply == s'.reply && s.gateway == s'.gateway && LastOf(s.trace) == LastOf(s'.trace)
  }

  /** What the core does once authentication has let the request through. */
  lemma {:induction false} PassesCheck(cfg: Config, g: Gateway, r: Request) returns (g': Gateway, jwt: Option<string>)
    requires !r.app.authDisabled ==> r.verb != OPTIONS && Rule(cfg, r.app.name, Identify(cfg, g, r)).Allowed?
    ensures g'.responses == g.responses && g'.limits == g.limits
    ensures g'.expiries in {g.expiries, ExpiriesAfter(cfg, g, r)}
    ensures SameEnd(Serve(Inner(r.app, r.verb), cfg, g, r, None), Serve(Core(r.app, r.verb), cfg, g', r, jwt))
  {
    g', jwt := g, None;
    if !r.app.authDisabled {
      g' := g.(expiries := ExpiriesAfter(cfg, g, r));
      jwt := Rule(cfg, r.app.name, Identify(cfg, g, r)).jwt;
      CoreTouches(cfg, g', r, jwt);
    }
  }

  /** What the core does once rate limiting and authentication have let the request through. */
  lemma {:induction false} Reaches(cfg: Config, g: Gateway, r: Request) returns (g': Gateway, jwt: Option<string>)
    requires r.app.rateLimiting ==> RateLimit.Decide(g.limits, cfg.lim, r.rate).Pass?
    requires !r.app.authDisabled ==> r.verb != OPTIONS && Rule(cfg, r.app.name, Identify(cfg, Before(g, r), r)).Allowed?
    ensures g'.responses == Before(g, r).responses
    ensures g'.limits == if r.app.rateLimiting then RateLimit.After(g.limits, cfg.lim, r.rate) else g.limits
    ensures g'.expiries in {Before(g, r).expiries, ExpiriesAfter(cfg, Before(g, r), r)}
    ensures SameEnd(Step(cfg, g, r), Serve(Core(r.app, r.verb), cfg, g', r, jwt))
  {
    LimiterFirst(cfg, g, r);
    var g1 := Before(g, r).(limits := Limits(cfg, g, r));
    assert Identify(cfg, g1, r) == Identify(cfg, Before(g, r), r);
    g', jwt := PassesCheck(cfg, g1, r);
    CoreTouches(cfg, g', r, jwt);
    assert SameEnd(Step(cfg, g, r), Serve(Inner(r.app, r.verb), cfg, g1, r, None));
  }

  /** A gateway with tokens to spare, whose verifier accepts every JWT. */
  function Open(service: string): Config {
    var verifier := ExpiryCache.Verifier((_, _) => true, _ => ExpiryCache.Claims(100, 0, 0));
    Config(RateLimit.Limits(10, Some(10)), verifier, service, "", map[])
  }

  function Visit(app: App, verb: Method, id: string, jwt: string, made: ResponseCache.Response): Request {
    Request(app, verb, RateLimit.Request("", 0, true, Up), Token(jwt, []), Some(""), 0, id, false, made, {}, {}, s => s)
  }

  ghost predicate Ready(cfg: Config, g: Gateway, r: Request, k: nat) {
    Room(cfg, g, r, k) && forall jwt | jwt in g.expiries :: g.expiries[jwt] == ExpiryCache.Int64(100)
  }

  ghost predicate IsVisit(r: Request) {
    r.credentials.Token? && r == Visit(r.app, r.verb, r.id, r.credentials.jwt, r.made)
  }

  lemma {:induction false} VisitAllowed(service: string, g: Gateway, r: Request, k: nat)
    requires IsVisit(r) && Ready(Open(service), g, r, k)
    ensures Rule(Open(service), r.app.name, Identify(Open(service), g, r)).Allowed?
    ensures Ready(Open(service), g.(expiries := ExpiriesAfter(Open(service), g, r)), r, k)
  {
    assert Identify(Open(service), g, r) == Holder(r.credentials.jwt, []);
  }

  lemma {:induction false} CoreKeeps(cfg: Config, g: Gateway, r: Request, jwt: Option<string>)
    ensures var s := Serve(Core(r.app, r.verb), cfg, g, r, jwt); s.gateway == g.(responses := s.gateway.responses)
  {
    assert [Cache][1..] == [] && [Flush][1..] == [];
  }

  /** A visit gets through to the core, and leaves room for the next one. */
  lemma {:induction false} OpenVisit(service: string, g: Gateway, r: Request, k: nat)
    returns (g': Gateway, jwt: Option<string>)
    requires IsVisit(r) && r.verb != OPTIONS && k > 0 && Ready(Open(service), g, r, k)
    ensures var cfg := Open(service);
      var s, core := Step(cfg, g, r), Serve(Core(r.app, r.verb), cfg, g', r, jwt);
      g'.responses == g.responses && SameEnd(s, core) && Ready(cfg, s.gateway, r, k - 1)
  {
    var cfg := Open(service);
    RoomLeft(cfg, g, r, k);
    assert Before(g, r) == g;
    VisitAllowed(service, g, r, k);
    g', jwt := Reaches(cfg, g, r);
    CoreKeeps(cfg, g', r, jwt);
  }

  /** What a GET of a caching application, and a POST to one that does not flush, do to the cache. */
  lemma {:induction false} OpenOutcome(service: string, g: Gateway, r: Request, k: nat)
    requires IsVisit(r) && r.made.status < 400 && k > 0 && Ready(Open(service), g, r, k)
    requires if r.verb == GET then r.app.caching else r.verb == POST && !FlushesApp(r.app)
    ensures var s, hit := Step(Open(service), g, r), r.verb == GET && r.id in g.responses;
      && Ready(Open(service), s.gateway, r, k - 1) && (Calls(s.trace) <==> !hit)
      && s.reply == Answered(if hit then g.responses[r.id] else r.made)
      && s.gateway.responses == if r.verb == GET && !hit then g.responses[r.id := r.made] else g.responses
  {
    var g', jwt := OpenVisit(service, g, r, k);
    assert [Cache][1..] == [];
    assert Core(r.app, r.verb) == if r.verb == GET then Cached(Backend) else Backend;
    assert Serve(Backend, Open(service), g', r, jwt) == Served(g', [Called(jwt)], Answered(r.made));
  }

  // ------------------------------------------------------------------ exactly when answers are current

  /** Which applications serve an identifier. */
  type Map = (string, App) -> bool

  predicate Respects(serves: Map, run: seq<Request>) {
    forall i | 0 <= i < |run| :: serves(run[i].id, run[i].app)
  }

  ghost predicate AlwaysCurrent(serves: Map) {
    forall cfg: Config, run: seq<Request>, backend: seq<ResponseCache.Backend>, i: nat |
      Respects(serves, run) && Upstream(cfg, run, backend) && i < |run| && ServedAt(cfg, run, i).reply.Answered? ::
      ServedAt(cfg, run, i).reply.response == run[i].made
  }

  /** Wherever a caching application serves an identifier, all applications that serve it flush. */
  ghost predicate Coherent(serves: Map) {
    forall id, a, b | serves(id, a) && serves(id, b) :: a.caching ==> FlushesApp(b)
  }

  function Stale(id: string, a: App, b: App): seq<Request> {
    var before, after := ResponseCache.Response(200, map[], "old"), ResponseCache.Response(200, map[], "new");
    [Visit(a, GET, id, "", before), Visit(b, POST, id, "", after), Visit(a, GET, id, "", after)]
  }

  /** A response outlives the change that another application made behind the cache's back. */
  lemma {:induction false} StaleAnswer(id: string, a: App, b: App)
    requires a.caching && !FlushesApp(b)
    ensures var cfg, run := Open(""), Stale(id, a, b);
      && Calls(ServedAt(cfg, run, 1).trace) && ServedAt(cfg, run, 2).reply == Answered(run[0].made)
      && run[0].made != run[2].made
  {
    var run, cfg := Stale(id, a, b), Open("");
    assert Ready(cfg, INITIAL, run[0], 3);
    OpenOutcome("", INITIAL, run[0], 3);
    var g1 := ServedAt(cfg, run, 0).gateway;
    assert GatewayAt(cfg, run, 1) == g1;
    OpenOutcome("", g1, run[1], 2);
    var g2 := ServedAt(cfg, run, 1).gateway;
    assert GatewayAt(cfg, run, 2) == g2;
    OpenOutcome("", g2, run[2], 1);
    assert run[0].made.body[0] != run[2].made.body[0];
  }

  /** The backend of that run, which answers differently once the second request has reached it. */
  lemma {:induction false} StaleUpstream(
    id: string, a: App, b: App, first: ResponseCache.Backend, later: ResponseCache.Backend)
    requires a.caching && !FlushesApp(b)
    requires forall x :: first(x) == Stale(id, a, b)[0].made
    requires forall x :: later(x) == if x == id then Stale(id, a, b)[2].made else first(x)
    ensures Upstream(Open(""), Stale(id, a, b), [first, first, later, later])
  {
    StaleAnswer(id, a, b);
  }

  /** Answers are current in all runs if and only if the applications are coherent. */
  lemma {:induction false} CurrentExactly(serves: Map)
    ensures AlwaysCurrent(serves) <==> Coherent(serves)
  {
    if Coherent(serves) {
      forall cfg: Config, run: seq<Request>, backend: seq<ResponseCache.Backend>, i: nat |
        Respects(serves, run) && Upstream(cfg, run, backend) && i < |run| && ServedAt(cfg, run, i).reply.Answered?
        ensures ServedAt(cfg, run, i).reply.response == run[i].made
      {
        AnswersCurrent(cfg, run, backend, i);
      }
    } else {
      var id, a, b :| serves(id, a) && serves(id, b) && a.caching && !FlushesApp(b);
      StaleCounts(serves, id, a, b);
    }
  }

  lemma {:induction false} StaleCounts(serves: Map, id: string, a: App, b: App)
    requires serves(id, a) && serves(id, b) && a.caching && !FlushesApp(b)
    ensures !AlwaysCurrent(serves)
  {
    var cfg, run := Open(""), Stale(id, a, b);
    var first: ResponseCache.Backend := _ => run[0].made;
    var later: ResponseCache.Backend := x => if x == id then run[2].made else run[0].made;
    StaleAnswer(id, a, b);
    StaleUpstream(id, a, b, first, later);
    assert Respects(serves, run) && ServedAt(cfg, run, 2).reply.response != run[2].made;
  }

  // ------------------------------------------------------------------ whose answer it is

  /** The answer was made by the backend when it was given the JWT of this request. */
  ghost predicate OwnAnswer(cfg: Config, run: seq<Request>, i: nat)
    requires i < |run| && run[i].credentials.Token? && ServedAt(cfg, run, i).reply.Answered?
  {
    exists j | 0 <= j <= i ::
      && run[j].id == run[i].id && FromBackend(run[j], ServedAt(cfg, run, j), ServedAt(cfg, run, i).reply.response)
      && LastOf(ServedAt(cfg, run, j).trace) == Some(Called(Some(run[i].credentials.jwt)))
  }

  ghost predicate AlwaysOwn(app: App) {
    forall cfg: Config, run: seq<Request>, i: nat |
      i < |run| && run[i].app == app && Protected(cfg, run[i]) && ServedAt(cfg, run, i).reply.Answered? ::
      run[i].credentials.Token? && OwnAnswer(cfg, run, i)
  }

  lemma {:induction false} UncachedOwn(cfg: Config, run: seq<Request>, i: nat)
    requires i < |run| && !run[i].app.caching && Protected(cfg, run[i]) && ServedAt(cfg, run, i).reply.Answered?
    ensures run[i].credentials.Token? && OwnAnswer(cfg, run, i)
  {
    var r, g := run[i], GatewayAt(cfg, run, i);
    SubjectStep(cfg, g, r);
    CalledWith(cfg, g, r);
    assert Core(r.app, r.verb) == Backend;
    assert Calls(ServedAt(cfg, run, i).trace);
    assert FromBackend(r, ServedAt(cfg, run, i), ServedAt(cfg, run, i).reply.response);
  }

  /** Two holders ask for the same thing. */
  function Shared(app: App): seq<Request> {
    [Visit(app, GET, "/", "a", ResponseCache.Response(200, map[], "for a")),
     Visit(app, GET, "/", "b", ResponseCache.Response(200, map[], "for b"))]
  }

  /** With caching, the second gets what the backend made for the first. */
  lemma {:induction false} SharedAnswer(app: App)
    requires app.caching && !app.authDisabled
    ensures var cfg, run := Open(app.name + "!"), Shared(app);
      && Protected(cfg, run[1]) && ServedAt(cfg, run, 1).reply.Answered? && !OwnAnswer(cfg, run, 1)
  {
    var service, run := app.name + "!", Shared(app);
    var cfg := Open(service);
    assert Ready(cfg, INITIAL, run[0], 2);
    OpenOutcome(service, INITIAL, run[0], 2);
    var g := ServedAt(cfg, run, 0).gateway;
    assert GatewayAt(cfg, run, 1) == g;
    OpenOutcome(service, g, run[1], 1);
    assert Protected(cfg, run[0]) && Protected(cfg, run[1]);
    CalledWith(cfg, INITIAL, run[0]);
    assert "a"[0] != "b"[0];
  }

  /**
    In all runs every answer to a protected request was made for the holder of its JWT if and
    only if the application does not cache, or does not authenticate at all: identifiers do not
    tell holders apart.
   */
  lemma {:induction false} OwnAnswersExactly(app: App)
    ensures AlwaysOwn(app) <==> !app.caching || app.authDisabled
  {
    if app.caching && !app.authDisabled {
      SharedAnswer(app);
    } else {
      forall cfg: Config, run: seq<Request>, i: nat |
        i < |run| && run[i].app == app && Protected(cfg, run[i]) && ServedAt(cfg, run, i).reply.Answered?
        ensures run[i].credentials.Token? && OwnAnswer(cfg, run, i)
      {
        UncachedOwn(cfg, run, i);
      }
    }
  }
}
