/**
  The token store (auth/tokenstore.go): records in Redis with a time to live, and a local LRU
  cache in front of them that is never checked against an expiry. The decisions made through
  both, and through the expiry cache of `IsAuthenticated`, are those of the latest record.
 */
module TokenStore {
  import opened Results
  import opened ExpiryCache

  /** `JWTResponse`; no allowed applications means that all are allowed. */
  datatype Response = Response(jwt: string, apps: seq<string>)

  // ------------------------------------------------------------------ the list of applications

  /** strings.Join(names, ";"). */
  function Join(names: seq<string>): string {
    if names == [] then "" else if |names| == 1 then names[0] else names[0] + ";" + Join(names[1..])
  }

  /** strings.Split(s, ";"). */
  function Split(s: string): (parts: seq<string>)
    ensures parts != []
  {
    if s == "" then [""]
    else if s[0] == ';' then [""] + Split(s[1..])
    else
      var rest := Split(s[1..]);
      [[s[0]] + rest[0]] + rest[1..]
  }

  /** What `GetToken` makes of the stored field. */
  function Unpack(s: string): seq<string> {
    if s == "" then [] else Split(s)
  }

  predicate Storable(names: seq<string>) {
    names != [""] && forall i | 0 <= i < |names| :: ';' !in names[i]
  }

  lemma {:induction false} SplitHasNoSeparator(s: string)
    ensures forall i | 0 <= i < |Split(s)| :: ';' !in Split(s)[i]
    decreases s
  {
    if s != "" {
      SplitHasNoSeparator(s[1..]);
    }
  }

  lemma {:induction false} SplitFirst(name: string, rest: string)
    requires ';' !in name
    ensures Split(name + ";" + rest) == [name] + Split(rest)
    ensures Split(name) == [name]
    decreases name
  {
    var s := name + ";" + rest;
    if name == "" {
      assert s[1..] == rest;
    } else {
      assert s[1..] == name[1..] + ";" + rest;
      SplitFirst(name[1..], rest);
      assert name == [name[0]] + name[1..];
    }
  }

  lemma {:induction false} SplitJoin(names: seq<string>)
    requires names != [] && forall i | 0 <= i < |names| :: ';' !in names[i]
    ensures Split(Join(names)) == names
    decreases names
  {
    if |names| == 1 {
      SplitFirst(names[0], "");
    } else {
      SplitJoin(names[1..]);
      SplitFirst(names[0], Join(names[1..]));
    }
  }

  /** A list survives storage if and only if no name has a ';' and it is not the single empty name. */
  lemma {:induction false} StorageExact(names: seq<string>)
    ensures Unpack(Join(names)) == names <==> Storable(names)
  {
    if names == [] || names == [""] {
    } else if forall i | 0 <= i < |names| :: ';' !in names[i] {
      SplitJoin(names);
    } else {
      SplitHasNoSeparator(Join(names));
    }
  }

  /** The field is the names with a ';' between them. */
  lemma {:induction false} JoinedForm(name: string, names: seq<string>)
    ensures Join([]) == "" && Join([name]) == name
    ensures names != [] ==> Join([name] + names) == name + ";" + Join(names)
  {
    assert ([name] + names)[1..] == names;
  }

  // ------------------------------------------------------------------ Redis

  /** A hash with the fields `jwt` and `applications`, and the time when it goes. */
  datatype Record = Record(jwt: string, apps: string, expireAt: Option<int>)

  /** Whether a record is still there; `tie` decides at the very instant of its expiry. */
  predicate Live(r: Record, now: int, tie: bool) {
    r.expireAt.None? || now < r.expireAt.value || (now == r.expireAt.value && tie)
  }

  /** Before its expiry a record is there, after it is not, and in that instant it is as the store has it. */
  lemma {:induction false} LiveWhen(r: Record, now: int, tie: bool)
    ensures r.expireAt.None? ==> Live(r, now, tie)
    ensures r.expireAt.Some? && now < r.expireAt.value ==> Live(r, now, tie)
    ensures r.expireAt.Some? && now > r.expireAt.value ==> !Live(r, now, tie)
    ensures r.expireAt.Some? && now == r.expireAt.value ==> (Live(r, now, tie) <==> tie)
  {
  }

  type Redis = map<string, Record>

  /** HMSET leaves the time to live of an existing key alone. */
  function Hmset(redis: Redis, token: string, resp: Response, now: int, tie: bool): Redis {
    var ttl := if token in redis && Live(redis[token], now, tie) then redis[token].expireAt else None;
    redis[token := Record(resp.jwt, Join(resp.apps), ttl)]
  }

  function ExpireAt(redis: Redis, token: string, exp: int): Redis {
    if token in redis then redis[token := redis[token].(expireAt := Some(exp))] else redis
  }

  /** What becomes of the two commands of a write. */
  datatype Commands = Commands(hmset: Link, expireAt: Link)

  const FINE := Commands(Up, Up)

  function RedisAfterSet(
    v: Verifier, redis: Redis, token: string, resp: Response, key: Option<string>, now: int, tie: bool, c: Commands)
    : Redis
  {
    if !Verifies(v, resp.jwt, key, now) || c.hmset == LostBefore then redis
    else
      var written := Hmset(redis, token, resp, now, tie);
      if c.hmset == Up && v.Exp(resp.jwt) > 0 && c.expireAt != LostBefore then ExpireAt(written, token, v.Exp(resp.jwt))
      else written
  }

  /** Whether the write is reported as done; if not, it may have been done all the same, or in part. */
  predicate Stored(v: Verifier, resp: Response, key: Option<string>, now: int, c: Commands) {
    Verifies(v, resp.jwt, key, now) && c.hmset == Up && (v.Exp(resp.jwt) > 0 ==> c.expireAt == Up)
  }

  /** HMGET on a key that is gone yields empty fields. */
  function RedisGet(redis: Redis, token: string, now: int, tie: bool): Response {
    if token in redis && Live(redis[token], now, tie) then Response(redis[token].jwt, Unpack(redis[token].apps))
    else Response("", [])
  }

  class RedisTokenStore {
    const verifier: Verifier
    var hashes: Redis

    constructor (verifier: Verifier)
      ensures this.verifier == verifier && hashes == map[]
    {
      this.verifier, hashes := verifier, map[];
    }

    /** The expiry of the JWT, or an error if it does not verify or a command fails. */
    method SetToken(token: string, resp: Response, key: Option<string>, now: int, tie: bool, c: Commands)
      returns (exp: Option<int>)
      modifies this
      ensures hashes == RedisAfterSet(verifier, old(hashes), token, resp, key, now, tie, c)
      ensures exp == if Stored(verifier, resp, key, now, c) then Some(verifier.Exp(resp.jwt)) else None
    {
      if !Verifies(verifier, resp.jwt, key, now) {
        return None;
      }
      if c.hmset != LostBefore {
        hashes := Hmset(hashes, token, resp, now, tie);
      }
      if c.hmset != Up {
        return None;
      }
      if verifier.Exp(resp.jwt) > 0 {
        if c.expireAt != LostBefore {
          hashes := ExpireAt(hashes, token, verifier.Exp(resp.jwt));
        }
        if c.expireAt != Up {
          return None;
        }
      }
      exp := Some(verifier.Exp(resp.jwt));
    }

    /** The record, or an error if the command fails. */
    method GetToken(token: string, now: int, tie: bool, hmget: Link) returns (resp: Option<Response>)
      ensures resp == if hmget == Up then Some(RedisGet(hashes, token, now, tie)) else None
    {
      if hmget != Up {
        return None;
      }
      var r := Response("", []);
      if token in hashes && Live(hashes[token], now, tie) {
        r := r.(jwt := hashes[token].jwt);
        if hashes[token].apps != "" {
          r := r.(apps := Split(hashes[token].apps));
        }
      }
      resp := Some(r);
    }
  }

  // ------------------------------------------------------------------ the local cache

  datatype CacheRecord = CacheRecord(resp: Response, exp: int)
  type Local = map<string, CacheRecord>

  function LocalAfterSet(
    v: Verifier, local: Local, token: string, resp: Response, key: Option<string>, now: int, c: Commands): Local
  {
    if Stored(v, resp, key, now, c) then local[token := CacheRecord(resp, v.Exp(resp.jwt))] else local
  }

  function Get(local: Local, redis: Redis, token: string, now: int, tie: bool): Response {
    if token in local then local[token].resp else RedisGet(redis, token, now, tie)
  }

  class CacheDecorator {
    const wrapped: RedisTokenStore
    var localCache: Local

    constructor (wrapped: RedisTokenStore)
      ensures this.wrapped == wrapped && localCache == map[]
    {
      this.wrapped, localCache := wrapped, map[];
    }

    /** The LRU cache drops entries to make room. */
    method Evict(gone: set<string>)
      modifies this
      ensures localCache == old(localCache) - gone
    {
      localCache := localCache - gone;
    }

    /** `SetToken`; `AddToken` is the same with a name that it makes up. */
    method SetToken(token: string, resp: Response, key: Option<string>, now: int, tie: bool, c: Commands)
      returns (exp: Option<int>)
      modifies this, wrapped
      ensures wrapped.hashes == RedisAfterSet(wrapped.verifier, old(wrapped.hashes), token, resp, key, now, tie, c)
      ensures localCache == LocalAfterSet(wrapped.verifier, old(localCache), token, resp, key, now, c)
      ensures exp == if Stored(wrapped.verifier, resp, key, now, c) then Some(wrapped.verifier.Exp(resp.jwt)) else None
    {
      exp := wrapped.SetToken(token, resp, key, now, tie, c);
      if exp.None? {
        return;
      }
      localCache := localCache[token := CacheRecord(resp, exp.value)];
    }

    /** A record that is held locally is returned without asking Redis. */
    method GetToken(token: string, now: int, tie: bool, hmget: Link) returns (resp: Option<Response>)
      ensures resp ==
        if token in localCache || hmget == Up then Some(Get(localCache, wrapped.hashes, token, now, tie)) else None
    {
      if token in localCache {
        return Some(localCache[token].resp);
      }
      resp := wrapped.GetToken(token, now, tie, hmget);
    }
  }

  /** The commands of a write, one after the other, that took effect. */
  predicate Took(link: Link) {
    link == Up || link == LostAfter
  }

  /**
    A write, whatever becomes of its commands. It is reported as done exactly if the JWT
    verifies and every command that is needed was answered, and then Redis has the whole record,
    with the JWT's expiry if it has a positive one. If it is reported as failed, the local cache
    stays as it was, though Redis may have the record, with or without its expiry.
   */
  lemma {:induction false} WriteOutcome(
    v: Verifier, redis: Redis, local: Local, token: string, resp: Response, key: Option<string>, now: int, tie: bool,
    c: Commands)
    ensures var verified, timed := Verifies(v, resp.jwt, key, now), v.Exp(resp.jwt) > 0;
      var done := verified && c.hmset == Up && (timed ==> c.expireAt == Up);
      var redis' := RedisAfterSet(v, redis, token, resp, key, now, tie, c);
      var local' := LocalAfterSet(v, local, token, resp, key, now, c);
      && Stored(v, resp, key, now, c) == done
      && local' == (if done then local[token := CacheRecord(resp, v.Exp(resp.jwt))] else local)
      && (forall t | t != token :: (t in redis' <==> t in redis) && (t in redis ==> redis'[t] == redis[t]))
      && (!(verified && Took(c.hmset)) ==> redis' == redis)
      && (verified && Took(c.hmset) ==>
            && token in redis' && redis'[token].jwt == resp.jwt && redis'[token].apps == Join(resp.apps)
            && (c.hmset == Up && timed && Took(c.expireAt) ==> redis'[token].expireAt == Some(v.Exp(resp.jwt)))
            && (!(c.hmset == Up && timed && Took(c.expireAt)) ==>
                  redis'[token].expireAt ==
                    if token in redis && Live(redis[token], now, tie) then redis[token].expireAt else None))
  {
  }

  // ------------------------------------------------------------------ runs

  /**
    What happens to the gateway: `key` is the verification key at that moment, which may change
    from one event to the next or be missing, and before each event both caches may drop what
    they like.
   */
  datatype Action = Set(resp: Response) | Authenticate
  datatype Event = Event(
    action: Action, token: string, key: Option<string>, now: int, tie: bool,
    goneLocal: set<string>, goneExp: set<string>)

  datatype State = State(redis: Redis, local: Local, exp: Cache)

  /** Evicts, and without the local cache evicts all of it. */
  function Evicted(s: State, e: Event, useLocal: bool): State {
    State(s.redis, if useLocal then s.local - e.goneLocal else map[], s.exp - e.goneExp)
  }

  function Next(v: Verifier, useLocal: bool, before: State, e: Event): State {
    var s := Evicted(before, e, useLocal);
    match e.action
    case Set(resp) =>
      State(RedisAfterSet(v, s.redis, e.token, resp, e.key, e.now, e.tie, FINE),
            LocalAfterSet(v, s.local, e.token, resp, e.key, e.now, FINE), s.exp)
    case Authenticate =>
      s.(exp := CacheAfter(v, s.exp, Get(s.local, s.redis, e.token, e.now, e.tie).jwt, e.key, e.now))
  }

  /** The decision on a request: the token's record if it is authenticated. */
  datatype Decision = NotAsked | Yes(resp: Response) | No | Panic

  function Judge(v: Verifier, useLocal: bool, before: State, e: Event): Decision {
    if e.action != Authenticate then NotAsked
    else
      var s := Evicted(before, e, useLocal);
      var resp := Get(s.local, s.redis, e.token, e.now, e.tie);
      match Decide(v, s.exp, resp.jwt, e.key, e.now)
      case Accepted => Yes(resp)
      case Rejected(_) => No
      case Crashed => Panic
  }

  function Decisions(v: Verifier, useLocal: bool, s: State, run: seq<Event>): seq<Decision>
    decreases run
  {
    if run == [] then []
    else [Judge(v, useLocal, s, run[0])] + Decisions(v, useLocal, Next(v, useLocal, s, run[0]), run[1..])
  }

  predicate InOrder(run: seq<Event>) {
    forall i, j | 0 <= i < j < |run| :: run[i].now <= run[j].now
  }

  /** What is stored, is a list that survives storage and a JWT with a positive expiry. */
  predicate Keepable(v: Verifier, e: Event) {
    e.action.Set? && Verifies(v, e.action.resp.jwt, e.key, e.now) ==>
      Storable(e.action.resp.apps) && v.Exp(e.action.resp.jwt) > 0
  }

  // ------------------------------------------------------------------ the reference

  /** The latest record of each token; nothing expires and nothing is cached. */
  type Latest = map<string, Response>

  function LatestAfter(v: Verifier, latest: Latest, e: Event): Latest {
    if e.action.Set? && Verifies(v, e.action.resp.jwt, e.key, e.now)
    then latest[e.token := e.action.resp]
    else latest
  }

  /** A request is authenticated iff the JWT of the latest record verifies afresh. */
  function Ruling(v: Verifier, latest: Latest, e: Event): Decision {
    if e.action != Authenticate then NotAsked
    else if e.token in latest && Fresh(v, latest[e.token].jwt, e.key, e.now) then Yes(latest[e.token])
    else No
  }

  function Rulings(v: Verifier, latest: Latest, run: seq<Event>): seq<Decision>
    decreases run
  {
    if run == [] then []
    else [Ruling(v, latest, run[0])] + Rulings(v, LatestAfter(v, latest, run[0]), run[1..])
  }

  /** A JWT that has verified at or before `now`, and has a positive expiry. */
  ghost predicate Seen(v: Verifier, key: string, jwt: string, now: int) {
    exists t :: t <= now && Verifies(v, jwt, Some(key), t) && v.Exp(jwt) > 0
  }

  ghost predicate Records(v: Verifier, key: string, latest: Latest, now: int) {
    forall token | token in latest :: Seen(v, key, latest[token].jwt, now) && Storable(latest[token].apps)
  }

  ghost predicate RedisInv(v: Verifier, redis: Redis, latest: Latest) {
    && redis.Keys == latest.Keys
    && forall token | token in redis ::
      redis[token] == Record(latest[token].jwt, Join(latest[token].apps), Some(v.Exp(latest[token].jwt)))
  }

  ghost predicate LocalInv(local: Local, latest: Latest) {
    forall token | token in local :: token in latest && local[token].resp == latest[token]
  }

  ghost predicate ExpInv(v: Verifier, key: string, exp: Cache, now: int) {
    forall jwt | jwt in exp :: exp[jwt] == Int64(v.Exp(jwt)) && Seen(v, key, jwt, now)
  }

  ghost predicate Inv(v: Verifier, key: string, s: State, latest: Latest, now: int) {
    && Records(v, key, latest, now) && RedisInv(v, s.redis, latest)
    && LocalInv(s.local, latest) && ExpInv(v, key, s.exp, now)
  }

  /** The empty JWT, which stands for a missing record, is signed under no key. */
  ghost predicate EmptyUnsigned(v: Verifier) {
    forall key :: !v.signed("", key)
  }

  lemma {:induction false} SeenLater(v: Verifier, key: string, jwt: string, now: int, later: int)
    requires Seen(v, key, jwt, now) && now <= later
    ensures Seen(v, key, jwt, later)
    ensures Verifies(v, jwt, Some(key), later) <==> later <= v.Exp(jwt)
  {
  }

  /** What is read, from either level: the latest record, or nothing once it has expired. */
  lemma {:induction false} ReadsLatest(v: Verifier, key: string, s: State, latest: Latest, e: Event)
    requires Inv(v, key, s, latest, e.now)
    ensures var resp := Get(s.local, s.redis, e.token, e.now, e.tie);
      || (e.token in latest && resp == latest[e.token])
      || (resp == Response("", []) && (e.token in latest ==> v.Exp(latest[e.token].jwt) <= e.now))
  {
    if e.token in latest {
      StorageExact(latest[e.token].apps);
    }
  }

  lemma {:induction false} JudgesByLatest(v: Verifier, key: string, useLocal: bool, s: State, latest: Latest, e: Event)
    requires EmptyUnsigned(v) && Inv(v, key, s, latest, e.now) && e.key == Some(key)
    ensures Judge(v, useLocal, s, e) == Ruling(v, latest, e)
  {
    if e.action == Authenticate {
      var s' := Evicted(s, e, useLocal);
      EvictionKeepsInv(v, key, useLocal, s, latest, e);
      ReadsLatest(v, key, s', latest, e);
      var jwt := Get(s'.local, s'.redis, e.token, e.now, e.tie).jwt;
      if jwt in s'.exp {
        SeenLater(v, key, jwt, e.now, e.now);
      }
    }
  }

  lemma {:induction false} SetKeepsRecords(
    v: Verifier, key: string, latest: Latest, token: string, resp: Response, now: int)
    requires Records(v, key, latest, now) && Storable(resp.apps)
    requires v.Exp(resp.jwt) > 0 && Verifies(v, resp.jwt, Some(key), now)
    ensures Records(v, key, latest[token := resp], now)
  {
    assert Seen(v, key, resp.jwt, now);
  }

  lemma {:induction false} SetKeepsRedis(
    v: Verifier, key: string, redis: Redis, latest: Latest, token: string, resp: Response, now: int, tie: bool)
    requires RedisInv(v, redis, latest) && v.Exp(resp.jwt) > 0 && Verifies(v, resp.jwt, Some(key), now)
    ensures RedisInv(v, RedisAfterSet(v, redis, token, resp, Some(key), now, tie, FINE), latest[token := resp])
  {
  }

  lemma {:induction false} SetKeepsLocal(
    v: Verifier, key: string, local: Local, latest: Latest, token: string, resp: Response, now: int)
    requires LocalInv(local, latest) && Verifies(v, resp.jwt, Some(key), now)
    ensures LocalInv(LocalAfterSet(v, local, token, resp, Some(key), now, FINE), latest[token := resp])
  {
  }

  lemma {:induction false} AuthenticateKeepsInv(v: Verifier, key: string, s: State, latest: Latest, e: Event)
    requires EmptyUnsigned(v) && Inv(v, key, s, latest, e.now)
    ensures var jwt := Get(s.local, s.redis, e.token, e.now, e.tie).jwt;
      ExpInv(v, key, CacheAfter(v, s.exp, jwt, Some(key), e.now), e.now)
  {
    ReadsLatest(v, key, s, latest, e);
  }

  lemma {:induction false} EvictionKeepsInv(
    v: Verifier, key: string, useLocal: bool, s: State, latest: Latest, e: Event)
    requires Inv(v, key, s, latest, e.now)
    ensures Inv(v, key, Evicted(s, e, useLocal), latest, e.now)
  {
  }

  lemma {:induction false} StepKeepsInv(v: Verifier, key: string, useLocal: bool, s: State, latest: Latest, e: Event)
    requires EmptyUnsigned(v) && Inv(v, key, s, latest, e.now) && Keepable(v, e) && e.key == Some(key)
    ensures Inv(v, key, Next(v, useLocal, s, e), LatestAfter(v, latest, e), e.now)
  {
    var s' := Evicted(s, e, useLocal);
    EvictionKeepsInv(v, key, useLocal, s, latest, e);
    if e.action == Authenticate {
      AuthenticateKeepsInv(v, key, s', latest, e);
    } else if Verifies(v, e.action.resp.jwt, Some(key), e.now) {
      SetKeepsRecords(v, key, latest, e.token, e.action.resp, e.now);
      SetKeepsRedis(v, key, s'.redis, latest, e.token, e.action.resp, e.now, e.tie);
      SetKeepsLocal(v, key, s'.local, latest, e.token, e.action.resp, e.now);
    }
  }

  lemma {:induction false} LaterInv(v: Verifier, key: string, s: State, latest: Latest, now: int, later: int)
    requires Inv(v, key, s, latest, now) && now <= later
    ensures Inv(v, key, s, latest, later)
  {
    forall jwt | Seen(v, key, jwt, now)
      ensures Seen(v, key, jwt, later)
    {
      SeenLater(v, key, jwt, now, later);
    }
  }

  /**
    In every run with one key, available throughout, and with or without the local cache, every
    decision is that of verifying the latest record afresh.
   */
  lemma {:induction false} RunRefines(
    v: Verifier, key: string, useLocal: bool, s: State, latest: Latest, now: int, run: seq<Event>)
    requires EmptyUnsigned(v) && Inv(v, key, s, latest, now) && InOrder(run)
    requires forall i | 0 <= i < |run| :: now <= run[i].now && Keepable(v, run[i]) && run[i].key == Some(key)
    ensures Decisions(v, useLocal, s, run) == Rulings(v, latest, run)
    decreases run
  {
    if run != [] {
      var e, rest := run[0], run[1..];
      assert forall i | 0 <= i < |rest| :: rest[i] == run[i + 1];
      LaterInv(v, key, s, latest, now, e.now);
      JudgesByLatest(v, key, useLocal, s, latest, e);
      StepKeepsInv(v, key, useLocal, s, latest, e);
      RunRefines(v, key, useLocal, Next(v, useLocal, s, e), LatestAfter(v, latest, e), e.now, rest);
    }
  }

  // ------------------------------------------------------------------ with and without the local cache

  /** A kind of responses; what a gateway is used for. */
  type Kind = Response -> bool

  const EMPTY := State(map[], map[], map[])

  /** What a verified write stores is of the kind, and its expiry is not negative. */
  predicate Fits(v: Verifier, ok: Kind, e: Event) {
    e.action.Set? && Verifies(v, e.action.resp.jwt, e.key, e.now) ==>
      ok(e.action.resp) && v.Exp(e.action.resp.jwt) >= 0
  }

  /** A response whose JWT has a positive expiry and one whose JWT has none can be valid at the same time. */
  ghost predicate Mixes(v: Verifier, ok: Kind, since: int) {
    exists a, b, ka, kb, t :: t >= since && Mixed(v, ok, a, b, ka, kb, t)
  }

  predicate Mixed(
    v: Verifier, ok: Kind, a: Response, b: Response, ka: Option<string>, kb: Option<string>, t: int)
  {
    && ok(a) && ok(b) && v.Exp(a.jwt) > 0 && v.Exp(b.jwt) == 0
    && Verifies(v, a.jwt, ka, t) && Verifies(v, b.jwt, kb, t)
  }

  /** A response that can ever be accepted has a list that survives storage. */
  ghost predicate Durable(v: Verifier, resp: Response, since: int) {
    (exists key, t :: t >= since && Fresh(v, resp.jwt, key, t)) ==> Storable(resp.apps)
  }

  ghost predicate Survives(v: Verifier, ok: Kind, since: int) {
    forall resp | ok(resp) :: Durable(v, resp, since)
  }

  /** The JWT is that of a response of the kind, and has verified at or before `now`, under some key. */
  ghost predicate Known(v: Verifier, ok: Kind, since: int, jwt: string, now: int) {
    exists a, key, t :: since <= t <= now && ok(a) && a.jwt == jwt && Verifies(v, jwt, key, t)
  }

  /** Redis: every record goes when its JWT expires, and not before. */
  ghost predicate Timely(v: Verifier, ok: Kind, since: int, redis: Redis, now: int) {
    forall token | token in redis ::
      && Known(v, ok, since, redis[token].jwt, now)
      && redis[token].expireAt == if v.Exp(redis[token].jwt) > 0 then Some(v.Exp(redis[token].jwt)) else None
  }

  ghost predicate Mirrors(v: Verifier, since: int, local: Local, redis: Redis) {
    forall token | token in local ::
      && token in redis && redis[token].jwt == local[token].resp.jwt
      && redis[token].apps == Join(local[token].resp.apps) && Durable(v, local[token].resp, since)
  }

  ghost predicate Exact(v: Verifier, exp: Cache) {
    "" !in exp && forall jwt | jwt in exp :: exp[jwt] == if v.Exp(jwt) == 0 then Int(0) else Int64(v.Exp(jwt))
  }

  /** The two gateways, with and without the local cache, side by side. */
  ghost predicate Alike(v: Verifier, ok: Kind, since: int, s: State, s': State, now: int) {
    && s.redis == s'.redis && s.exp == s'.exp
    && Timely(v, ok, since, s.redis, now) && Mirrors(v, since, s.local, s.redis) && Exact(v, s.exp)
  }

  /** Until it expires, a JWT that has verified under some key still does under that key. */
  lemma {:induction false} KnownVerifies(v: Verifier, ok: Kind, since: int, jwt: string, now: int)
    returns (a: Response, key: Option<string>)
    requires Known(v, ok, since, jwt, now) && (v.Exp(jwt) == 0 || now <= v.Exp(jwt))
    ensures ok(a) && a.jwt == jwt && Verifies(v, jwt, key, now)
  {
    var t;
    a, key, t :| since <= t <= now && ok(a) && a.jwt == jwt && Verifies(v, jwt, key, t);
  }

  /** A write keeps Redis timely unless the kind mixes. */
  lemma {:induction false} SetTimely(v: Verifier, ok: Kind, since: int, redis: Redis, e: Event)
    requires !Mixes(v, ok, since) && Timely(v, ok, since, redis, e.now) && e.now >= since
    requires e.action.Set? && Fits(v, ok, e)
    ensures Timely(v, ok, since, RedisAfterSet(v, redis, e.token, e.action.resp, e.key, e.now, e.tie, FINE), e.now)
  {
    var resp := e.action.resp;
    if Verifies(v, resp.jwt, e.key, e.now) {
      assert Known(v, ok, since, resp.jwt, e.now);
      var kept := e.token in redis && Live(redis[e.token], e.now, e.tie) && redis[e.token].expireAt.Some?;
      if kept && v.Exp(resp.jwt) == 0 {
        var a, key := KnownVerifies(v, ok, since, redis[e.token].jwt, e.now);
        assert Mixed(v, ok, a, resp, key, e.key, e.now);
      }
    }
  }

  /** A response that cannot be stored is not accepted either. */
  lemma {:induction false} LostRejected(
    v: Verifier, ok: Kind, since: int, resp: Response, exp: Cache, key: Option<string>, now: int)
    requires Known(v, ok, since, resp.jwt, now) && Durable(v, resp, since) && !Storable(resp.apps)
    requires Exact(v, exp) && now >= since
    ensures Decide(v, exp, resp.jwt, key, now).Rejected? && CacheAfter(v, exp, resp.jwt, key, now) == exp
  {
    assert !Fresh(v, resp.jwt, key, now);
    if v.Exp(resp.jwt) == 0 || now <= v.Exp(resp.jwt) {
      var _, k := KnownVerifies(v, ok, since, resp.jwt, now);
      assert !Fresh(v, resp.jwt, k, now);
    }
  }

  /** Reads differ only where the record has expired or its list is lost, and there neither is accepted. */
  lemma {:induction false} ReadsAlike(
    v: Verifier, ok: Kind, since: int, local: Local, redis: Redis, exp: Cache, e: Event)
    requires EmptyUnsigned(v) && e.now >= since
    requires Timely(v, ok, since, redis, e.now) && Mirrors(v, since, local, redis) && Exact(v, exp)
    ensures var a, b := Get(local, redis, e.token, e.now, e.tie), RedisGet(redis, e.token, e.now, e.tie);
      a == b ||
      (&& Decide(v, exp, a.jwt, e.key, e.now).Rejected? && Decide(v, exp, b.jwt, e.key, e.now).Rejected?
       && CacheAfter(v, exp, a.jwt, e.key, e.now) == exp == CacheAfter(v, exp, b.jwt, e.key, e.now))
  {
    if e.token in local {
      var resp := local[e.token].resp;
      if Storable(resp.apps) {
        StorageExact(resp.apps);
      } else {
        LostRejected(v, ok, since, resp, exp, e.key, e.now);
      }
    }
  }

  lemma {:induction false} SetMirrors(
    v: Verifier, since: int, local: Local, redis: Redis, token: string, resp: Response, key: Option<string>,
    now: int, tie: bool)
    requires Mirrors(v, since, local, redis) && (Verifies(v, resp.jwt, key, now) ==> Durable(v, resp, since))
    ensures Mirrors(v, since, LocalAfterSet(v, local, token, resp, key, now, FINE),
                    RedisAfterSet(v, redis, token, resp, key, now, tie, FINE))
  {
  }

  lemma {:induction false} CheckExact(v: Verifier, exp: Cache, jwt: string, key: Option<string>, now: int)
    requires EmptyUnsigned(v) && Exact(v, exp)
    ensures Exact(v, CacheAfter(v, exp, jwt, key, now))
  {
  }

  lemma {:induction false} EvictionAlike(v: Verifier, ok: Kind, since: int, s: State, s': State, e: Event)
    requires Alike(v, ok, since, s, s', e.now)
    ensures Alike(v, ok, since, Evicted(s, e, true), Evicted(s', e, false), e.now)
  {
  }

  lemma {:induction false} StepAlike(v: Verifier, ok: Kind, since: int, s: State, s': State, e: Event)
    requires EmptyUnsigned(v) && !Mixes(v, ok, since) && Survives(v, ok, since)
    requires Alike(v, ok, since, s, s', e.now) && e.now >= since && Fits(v, ok, e)
    ensures Judge(v, true, s, e) == Judge(v, false, s', e)
    ensures Alike(v, ok, since, Next(v, true, s, e), Next(v, false, s', e), e.now)
  {
    EvictionAlike(v, ok, since, s, s', e);
    var t, t' := Evicted(s, e, true), Evicted(s', e, false);
    match e.action
    case Set(resp) =>
      SetTimely(v, ok, since, t.redis, e);
      SetMirrors(v, since, t.local, t.redis, e.token, resp, e.key, e.now, e.tie);
    case Authenticate =>
      ReadsAlike(v, ok, since, t.local, t.redis, t.exp, e);
      assert Get(t'.local, t'.redis, e.token, e.now, e.tie) == RedisGet(t.redis, e.token, e.now, e.tie);
      CheckExact(v, t.exp, Get(t.local, t.redis, e.token, e.now, e.tie).jwt, e.key, e.now);
  }

  lemma {:induction false} LaterAlike(v: Verifier, ok: Kind, since: int, s: State, s': State, now: int, later: int)
    requires Alike(v, ok, since, s, s', now) && now <= later
    ensures Alike(v, ok, since, s, s', later)
  {
    forall token | token in s.redis
      ensures Known(v, ok, since, s.redis[token].jwt, later)
    {
      var a, key, t :| since <= t <= now && ok(a) && a.jwt == s.redis[token].jwt && Verifies(v, a.jwt, key, t);
      assert since <= t <= later;
    }
  }

  lemma {:induction false} RunAlike(
    v: Verifier, ok: Kind, since: int, s: State, s': State, now: int, run: seq<Event>)
    requires EmptyUnsigned(v) && !Mixes(v, ok, since) && Survives(v, ok, since) && since <= now
    requires Alike(v, ok, since, s, s', now) && InOrder(run)
    requires forall i | 0 <= i < |run| :: now <= run[i].now && Fits(v, ok, run[i])
    ensures Decisions(v, true, s, run) == Decisions(v, false, s', run)
    decreases run
  {
    if run != [] {
      var e, rest := run[0], run[1..];
      assert forall i | 0 <= i < |rest| :: rest[i] == run[i + 1];
      LaterAlike(v, ok, since, s, s', now, e.now);
      StepAlike(v, ok, since, s, s', e);
      RunAlike(v, ok, since, Next(v, true, s, e), Next(v, false, s', e), e.now, rest);
    }
  }

  /**
    However the keys change, the decisions made with the local cache are those made without it,
    if what is stored has a positive expiry and a list that survives storage.
   */
  lemma {:induction false} LocalCacheTransparent(v: Verifier, run: seq<Event>, now: int)
    requires EmptyUnsigned(v) && InOrder(run)
    requires forall i | 0 <= i < |run| :: now <= run[i].now && Keepable(v, run[i])
    ensures Decisions(v, true, EMPTY, run) == Decisions(v, false, EMPTY, run)
  {
    var ok: Kind := (resp: Response) => v.Exp(resp.jwt) > 0 && Storable(resp.apps);
    RunAlike(v, ok, now, EMPTY, EMPTY, now, run);
  }

  // ------------------------------------------------------------------ exactly when the local cache is transparent

  /** A run from time `since` on that stores only responses of a kind. */
  ghost predicate Uses(ok: Kind, since: int, run: seq<Event>) {
    && InOrder(run) && (forall i | 0 <= i < |run| :: run[i].now >= since)
    && (forall i | 0 <= i < |run| && run[i].action.Set? :: ok(run[i].action.resp))
  }

  ghost predicate AlwaysTransparent(v: Verifier, ok: Kind, since: int) {
    forall run | Uses(ok, since, run) :: Decisions(v, true, EMPTY, run) == Decisions(v, false, EMPTY, run)
  }

  /** A write that finds nothing evicted. */
  function Write(resp: Response, token: string, key: Option<string>, t: int): Event {
    Event(Set(resp), token, key, t, true, {}, {})
  }

  function Ask(token: string, key: Option<string>, t: int): Event {
    Event(Authenticate, token, key, t, true, {}, {})
  }

  /**
    Why: a record without an expiry keeps the time to live of the record that it replaces, so
    that it is gone from Redis while the local cache still has it.
   */
  lemma {:induction false} NoExpiryDiffers(
    v: Verifier, ok: Kind, token: string, a: Response, b: Response, ka: Option<string>, kb: Option<string>, t: int)
    requires EmptyUnsigned(v) && Mixed(v, ok, a, b, ka, kb, t)
    ensures var run := [Write(a, token, ka, t), Write(b, token, kb, t), Ask(token, kb, v.Exp(a.jwt) + 1)];
      && Uses(ok, t, run)
      && Decisions(v, true, EMPTY, run) == [NotAsked, NotAsked, Yes(b)]
      && Decisions(v, false, EMPTY, run) == [NotAsked, NotAsked, No]
  {
    var first, second, third := Write(a, token, ka, t), Write(b, token, kb, t), Ask(token, kb, v.Exp(a.jwt) + 1);
    assert [first, second, third][1..] == [second, third] && [second, third][1..] == [third] && [third][1..] == [];
    forall useLocal: bool
      ensures Decisions(v, useLocal, EMPTY, [first, second, third]) ==
              [NotAsked, NotAsked, if useLocal then Yes(b) else No]
    {
      var s2 := Next(v, useLocal, Next(v, useLocal, EMPTY, first), second);
      LateRead(v, ok, useLocal, token, a, b, ka, kb, t);
      assert Decisions(v, useLocal, s2, [third]) == [Judge(v, useLocal, s2, third)];
    }
  }

  lemma {:induction false} LateRead(
    v: Verifier, ok: Kind, useLocal: bool, token: string, a: Response, b: Response,
    ka: Option<string>, kb: Option<string>, t: int)
    requires EmptyUnsigned(v) && Mixed(v, ok, a, b, ka, kb, t)
    ensures var s2 := Next(v, useLocal, Next(v, useLocal, EMPTY, Write(a, token, ka, t)), Write(b, token, kb, t));
      Judge(v, useLocal, s2, Ask(token, kb, v.Exp(a.jwt) + 1)) == if useLocal then Yes(b) else No
  {
    var s2 := Next(v, useLocal, Next(v, useLocal, EMPTY, Write(a, token, ka, t)), Write(b, token, kb, t));
    assert s2.redis[token] == Record(b.jwt, Join(b.apps), Some(v.Exp(a.jwt)));
    assert useLocal ==> s2.local[token].resp == b;
  }

  /** A list that does not survive storage is read back differently. */
  lemma {:induction false} LostListDiffers(
    v: Verifier, ok: Kind, token: string, resp: Response, key: Option<string>, t: int)
    requires ok(resp) && Fresh(v, resp.jwt, key, t) && !Storable(resp.apps)
    ensures var run := [Write(resp, token, key, t), Ask(token, key, t)];
      && Uses(ok, t, run)
      && Decisions(v, true, EMPTY, run) == [NotAsked, Yes(resp)]
      && Decisions(v, false, EMPTY, run) == [NotAsked, Yes(Response(resp.jwt, Unpack(Join(resp.apps))))]
      && Unpack(Join(resp.apps)) != resp.apps
  {
    StorageExact(resp.apps);
    var first, second := Write(resp, token, key, t), Ask(token, key, t);
    assert [first, second][1..] == [second] && [second][1..] == [];
    forall useLocal: bool
      ensures Decisions(v, useLocal, EMPTY, [first, second]) ==
              [NotAsked, Yes(if useLocal then resp else Response(resp.jwt, Unpack(Join(resp.apps))))]
    {
      var s := Next(v, useLocal, EMPTY, first);
      assert s.redis[token].jwt == resp.jwt && s.redis[token].apps == Join(resp.apps) && Live(s.redis[token], t, true);
      assert Decisions(v, useLocal, s, [second]) == [Judge(v, useLocal, s, second)];
    }
  }

  /**
    Exactly when the local cache changes no decision, over all runs from a positive time on
    that store responses of a kind, however the keys change: when no JWT of the kind with an
    expiry is valid together with one without, each under a key of its own, and the lists of
    all responses that can be accepted survive storage.
   */
  lemma {:induction false} LocalCacheTransparentExactly(v: Verifier, ok: Kind, since: int)
    requires EmptyUnsigned(v) && since > 0
    ensures AlwaysTransparent(v, ok, since) <==> !Mixes(v, ok, since) && Survives(v, ok, since)
  {
    if Mixes(v, ok, since) {
      var a, b, ka, kb, t :| t >= since && Mixed(v, ok, a, b, ka, kb, t);
      NoExpiryDiffers(v, ok, "", a, b, ka, kb, t);
    } else if !Survives(v, ok, since) {
      var resp :| ok(resp) && !Durable(v, resp, since);
      var key, t :| t >= since && Fresh(v, resp.jwt, key, t);
      LostListDiffers(v, ok, "", resp, key, t);
    } else {
      forall run | Uses(ok, since, run)
        ensures Decisions(v, true, EMPTY, run) == Decisions(v, false, EMPTY, run)
      {
        RunAlike(v, ok, since, EMPTY, EMPTY, since, run);
      }
    }
  }
}
