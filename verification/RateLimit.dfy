/**
  The rate limiter (ratelimit/ratelimiting.go): a counter per client in a Redis store that
  any number of gateway processes share. Times are instants of the store's clock, in nanoseconds.
 */
module RateLimit {

  import opened Results

  // ------------------------------------------------------------------ the store

  /** A Redis integer; a key without an expiry lives for ever. */
  datatype Entry = Entry(value: int, expires: Option<int>)
  type Store = map<string, Entry>

  /**
    `burst` and `window` of the configuration. The window is `None` when the store does
    not accept the `EX` argument, which must be printed as a positive whole number.
   */
  datatype Limits = Limits(burst: int, window: Option<int>) {
    ghost predicate Valid() {
      window.Some? ==> window.value > 0
    }

    /** How many requests one bucket admits. */
    function Quota(): nat {
      if burst > 1 then burst - 1 else 0
    }
  }

  /** The second, in the nanoseconds of a Go duration. */
  const SECOND := 1_000_000_000

  /**
    The limits for a configured duration. Its seconds are sent as a floating-point number in
    the shortest form, which from a million on has an exponent and is refused.
   */
  function LimitsOf(burst: int, duration: int): (lim: Limits)
    ensures lim.Valid() && (lim.window.Some? ==> lim.window.value == duration)
    ensures lim.window.None? <==> duration <= 0 || duration % SECOND != 0 || duration >= 1_000_000 * SECOND
  {
    if duration > 0 && duration % SECOND == 0 && duration / SECOND < 1_000_000
    then Limits(burst, Some(duration))
    else Limits(burst, None)
  }

  /**
    Whether an entry is still there at time `now`. `tie` says whether an entry outlives the
    very instant of its expiry, which depends on the store.
   */
  predicate Alive(e: Entry, now: int, tie: bool) {
    e.expires.None? || now < e.expires.value || (now == e.expires.value && tie)
  }

  predicate Present(s: Store, key: string, now: int, tie: bool) {
    key in s && Alive(s[key], now, tie)
  }

  /** SET key burst EX window NX; a window that is not accepted makes the command fail without effect. */
  function SetNxEx(s: Store, key: string, lim: Limits, now: int, tie: bool): Store {
    if Present(s, key, now, tie) || lim.window.None? then s
    else s[key := Entry(lim.burst, Some(now + lim.window.value))]
  }

  /** DECR key: a missing key counts as 0 and is created without an expiry. */
  function Decr(s: Store, key: string, now: int, tie: bool): Store {
    if Present(s, key, now, tie) then s[key := s[key].(value := s[key].value - 1)]
    else s[key := Entry(-1, None)]
  }

  /** What DECR leaves: one less than before, where a key that is gone counts as 0 and gets no expiry. */
  lemma {:induction false} DecrExact(s: Store, key: string, now: int, tie: bool)
    ensures var s' := Decr(s, key, now, tie);
      && key in s' && (forall k | k != key :: (k in s' <==> k in s) && (k in s ==> s'[k] == s[k]))
      && s'[key] ==
           if Present(s, key, now, tie) then Entry(s[key].value - 1, s[key].expires) else Entry(0 - 1, None)
  {
  }

  function BucketKey(client: string): string {
    "RL_BUCKET_" + client
  }

  /** MULTI; SET NX EX; DECR; EXEC: one atomic step at one instant. */
  function Transaction(s: Store, client: string, lim: Limits, now: int, tie: bool): Store {
    var key := BucketKey(client);
    Decr(SetNxEx(s, key, lim, now, tie), key, now, tie)
  }

  // ------------------------------------------------------------------ the middleware

  /** What the handler does with a request; `remaining` is the `X-RateLimit-Remaining` header. */
  datatype Verdict = Unavailable | TooMany(limit: int, remaining: int) | Pass(limit: int, remaining: int)

  datatype Request = Request(client: string, time: int, tie: bool, link: Link)

  function Decide(s: Store, lim: Limits, r: Request): Verdict {
    if r.link != Up then Unavailable
    else
      var left := Transaction(s, r.client, lim, r.time, r.tie)[BucketKey(r.client)].value;
      if left <= 0 then TooMany(lim.burst, 0) else Pass(lim.burst, left)
  }

  function After(s: Store, lim: Limits, r: Request): Store {
    if r.link == LostBefore then s else Transaction(s, r.client, lim, r.time, r.tie)
  }

  class Throttler {
    var store: Store
    const lim: Limits

    constructor (lim: Limits)
      ensures store == map[] && this.lim == lim
    {
      this.lim, store := lim, map[];
    }

    /** `takeToken`: the value of the counter, or an error. */
    method TakeToken(r: Request) returns (remaining: Option<int>)
      modifies this
      ensures store == After(old(store), lim, r)
      ensures remaining.None? <==> r.link != Up
      ensures remaining.Some? ==> BucketKey(r.client) in store && remaining.value == store[BucketKey(r.client)].value
    {
      var key := BucketKey(r.client);
      if r.link == LostBefore {
        return None;
      }
      store := SetNxEx(store, key, lim, r.time, r.tie);
      store := Decr(store, key, r.time, r.tie);
      if r.link == LostAfter {
        return None;
      }
      remaining := Some(store[key].value);
    }

    /** The decorated handler; the wrapped one is called iff the verdict is `Pass`. */
    method Handle(r: Request) returns (v: Verdict)
      modifies this
      ensures store == After(old(store), lim, r)
      ensures v == Decide(old(store), lim, r)
    {
      var taken := TakeToken(r);
      if taken.None? {
        return Unavailable;
      }
      var remaining := taken.value;
      if remaining < 0 {
        remaining := 0;
      }
      if remaining <= 0 {
        v := TooMany(lim.burst, remaining);
      } else {
        v := Pass(lim.burst, remaining);
      }
    }
  }

  // ------------------------------------------------------------------ runs

  /** Requests in the order in which the store serves them, from any number of gateways. */
  type Run = seq<Request>

  predicate Ordered(run: Run) {
    forall i, j | 0 <= i < j < |run| :: run[i].time <= run[j].time
  }

  function StoreAfter(s: Store, lim: Limits, run: Run): Store
    decreases run
  {
    if run == [] then s else StoreAfter(After(s, lim, run[0]), lim, run[1..])
  }

  /** The verdicts on the requests of `client`. */
  function Verdicts(s: Store, lim: Limits, run: Run, client: string): seq<Verdict>
    decreases run
  {
    if run == [] then []
    else
      (if run[0].client == client then [Decide(s, lim, run[0])] else [])
      + Verdicts(After(s, lim, run[0]), lim, run[1..], client)
  }

  /** How many requests of `client` at times in [from, until) are admitted. */
  function Admitted(s: Store, lim: Limits, run: Run, client: string, from: int, until: int): nat
    decreases run
  {
    if run == [] then 0
    else
      (if run[0].client == client && from <= run[0].time < until && Decide(s, lim, run[0]).Pass? then 1 else 0)
      + Admitted(After(s, lim, run[0]), lim, run[1..], client, from, until)
  }

  lemma {:induction false} BucketKeysDiffer(a: string, b: string)
    requires a != b
    ensures BucketKey(a) != BucketKey(b)
  {
    assert BucketKey(a)[10..] == a && BucketKey(b)[10..] == b;
  }

  // ------------------------------------------------------------------ the reference: greedy windows

  /**
    The limiter as a client sees it: a request that arrives when no window is open, or the
    open one is over, opens a window; the n-th request of a window is admitted iff n is at
    most the quota. `start` is the opening time of the window and `n` its request count.
   */
  datatype Window = Closed | Open(start: int, n: nat)

  predicate Over(w: Window, length: int, r: Request) {
    w.Closed? || r.time > w.start + length || (r.time == w.start + length && !r.tie)
  }

  function Advance(w: Window, length: int, r: Request): Window {
    if r.link == LostBefore then w
    else if Over(w, length, r) then Open(r.time, 1)
    else Open(w.start, w.n + 1)
  }

  function Judge(w: Window, lim: Limits, length: int, r: Request): Verdict {
    if r.link != Up then Unavailable
    else
      var n := Advance(w, length, r).n;
      if n <= lim.Quota() then Pass(lim.burst, lim.burst - n) else TooMany(lim.burst, 0)
  }

  function Judged(w: Window, lim: Limits, length: int, run: Run): seq<Verdict>
    decreases run
  {
    if run == [] then []
    else [Judge(w, lim, length, run[0])] + Judged(Advance(w, length, run[0]), lim, length, run[1..])
  }

  function WindowAfter(w: Window, length: int, run: Run): Window
    decreases run
  {
    if run == [] then w else WindowAfter(Advance(w, length, run[0]), length, run[1..])
  }

  function RequestsOf(run: Run, client: string): Run {
    if run == [] then []
    else (if run[0].client == client then [run[0]] else []) + RequestsOf(run[1..], client)
  }

  /** The counter of a client, seen as a window: it has an expiry, and n requests have left burst - n. */
  ghost predicate Represents(s: Store, lim: Limits, client: string, w: Window)
    requires lim.window.Some?
  {
    var key := BucketKey(client);
    match w
    case Closed => key !in s
    case Open(start, n) =>
      n > 0 && key in s && s[key] == Entry(lim.burst - n, Some(start + lim.window.value))
  }

  /** One request does to the counter what it does to the window, and is judged alike. */
  lemma {:induction false} RequestRefines(s: Store, lim: Limits, r: Request, w: Window)
    requires lim.window.Some? && Represents(s, lim, r.client, w)
    requires lim.Valid()
    ensures Represents(After(s, lim, r), lim, r.client, Advance(w, lim.window.value, r))
    ensures Decide(s, lim, r) == Judge(w, lim, lim.window.value, r)
  {
  }

  /** A request of another client changes nothing for this one. */
  lemma {:induction false} RequestIsolated(s: Store, lim: Limits, r: Request, client: string)
    requires r.client != client
    ensures BucketKey(client) in After(s, lim, r) <==> BucketKey(client) in s
    ensures BucketKey(client) in s ==> After(s, lim, r)[BucketKey(client)] == s[BucketKey(client)]
  {
    BucketKeysDiffer(r.client, client);
  }

  /**
    In every run the verdicts on a client's requests are those of its own greedy windows, and
    in every reachable store its counter stands for the window that they have led to.
   */
  lemma {:induction false} RunRefines(s: Store, lim: Limits, run: Run, client: string, w: Window)
    requires lim.Valid() && lim.window.Some? && Represents(s, lim, client, w)
    ensures Verdicts(s, lim, run, client) == Judged(w, lim, lim.window.value, RequestsOf(run, client))
    ensures Represents(StoreAfter(s, lim, run), lim, client, WindowAfter(w, lim.window.value, RequestsOf(run, client)))
    decreases run
  {
    if run != [] {
      var r := run[0];
      if r.client == client {
        RequestRefines(s, lim, r, w);
        var rest := RequestsOf(run[1..], client);
        assert RequestsOf(run, client) == [r] + rest && ([r] + rest)[1..] == rest;
        RunRefines(After(s, lim, r), lim, run[1..], client, Advance(w, lim.window.value, r));
      } else {
        RequestIsolated(s, lim, r, client);
        RunRefines(After(s, lim, r), lim, run[1..], client, w);
        assert RequestsOf(run, client) == RequestsOf(run[1..], client);
      }
    }
  }

  ghost predicate AllExpire(s: Store) {
    forall key | key in s :: s[key].expires.Some?
  }

  /** With a window that the store accepts, every bucket of every reachable store has an expiry. */
  lemma {:induction false} BucketsExpire(s: Store, lim: Limits, run: Run)
    requires lim.Valid() && lim.window.Some? && AllExpire(s)
    ensures AllExpire(StoreAfter(s, lim, run))
    decreases run
  {
    if run != [] {
      BucketsExpire(After(s, lim, run[0]), lim, run[1..]);
    }
  }

  /** With a window that the store does not accept, no request is ever admitted. */
  lemma {:induction false} BadWindowBlocks(s: Store, lim: Limits, run: Run, client: string, i: nat)
    requires lim.window.None? && forall key | key in s :: s[key].value < 0 && s[key].expires.None?
    requires i < |Verdicts(s, lim, run, client)|
    ensures !Verdicts(s, lim, run, client)[i].Pass?
    decreases run
  {
    var r := run[0];
    if r.client != client {
      BadWindowBlocks(After(s, lim, r), lim, run[1..], client, i);
    } else if i > 0 {
      BadWindowBlocks(After(s, lim, r), lim, run[1..], client, i - 1);
    }
  }

  // ------------------------------------------------------------------ the sliding window

  /** How many more requests the counter of `client` can admit before it expires. */
  ghost function Left(s: Store, client: string): nat {
    var key := BucketKey(client);
    if key in s && s[key].value > 1 then s[key].value - 1 else 0
  }

  /** No counter that has been used stands above burst - 1. */
  ghost predicate Used(s: Store, lim: Limits) {
    forall key | key in s :: s[key].value <= lim.burst - 1
  }

  /** Whether the counter of `client` certainly lives until `until`. */
  ghost predicate Lasts(s: Store, client: string, until: int) {
    var key := BucketKey(client);
    key in s && s[key].expires.Some? && s[key].expires.value >= until
  }

  /** From time `from` on: what is left in the counter, and one new bucket unless it lasts. */
  lemma {:induction false} AdmittedFrom(s: Store, lim: Limits, run: Run, client: string, from: int)
    requires lim.Valid() && lim.window.Some? && Ordered(run) && AllExpire(s)
    requires forall i | 0 <= i < |run| :: run[i].time >= from
    ensures var until := from + lim.window.value;
      Admitted(s, lim, run, client, from, until) <=
        Left(s, client) + if Lasts(s, client, until) then 0 else lim.Quota()
    decreases run
  {
    if run != [] {
      var r := run[0];
      assert forall i | 0 <= i < |run[1..]| :: run[1..][i] == run[i + 1];
      AdmittedFrom(After(s, lim, r), lim, run[1..], client, from);
      if r.client != client {
        RequestIsolated(s, lim, r, client);
      } else if r.time >= from + lim.window.value {
        NoneAdmittedLater(After(s, lim, r), lim, run[1..], client, from, from + lim.window.value);
      }
    }
  }

  lemma {:induction false} NoneAdmittedLater(s: Store, lim: Limits, run: Run, client: string, from: int, until: int)
    requires forall i | 0 <= i < |run| :: run[i].time >= until
    ensures Admitted(s, lim, run, client, from, until) == 0
    decreases run
  {
    if run != [] {
      assert forall i | 0 <= i < |run[1..]| :: run[1..][i] == run[i + 1];
      NoneAdmittedLater(After(s, lim, run[0]), lim, run[1..], client, from, until);
    }
  }

  /**
    The sliding-window bound: over every ordered run that starts from a store whose counters
    have been used, a client gets fewer than twice the quota in any half-open interval of the
    length of the window.
   */
  lemma {:induction false} SlidingWindow(s: Store, lim: Limits, run: Run, client: string, from: int)
    requires lim.Valid() && lim.window.Some? && Ordered(run) && AllExpire(s) && Used(s, lim)
    ensures Admitted(s, lim, run, client, from, from + lim.window.value) <=
      if lim.Quota() == 0 then 0 else 2 * lim.Quota() - 1
    decreases run
  {
    if run != [] {
      if run[0].time >= from {
        AdmittedFrom(s, lim, run, client, from);
      } else {
        assert forall i, j | 0 <= i < j < |run[1..]| :: run[1..][i] == run[i + 1] && run[1..][j] == run[j + 1];
        SlidingWindow(After(s, lim, run[0]), lim, run[1..], client, from);
      }
    }
  }

  // ------------------------------------------------------------------ the bound is exact

  function Repeat(n: nat, r: Request): Run {
    seq(n, _ => r)
  }

  /** `n` requests at one instant while the bucket has more than `n` left are all admitted. */
  lemma {:induction false} Volley(s: Store, lim: Limits, r: Request, n: nat, rest: Run, from: int, until: int)
    requires r.link == Up && from <= r.time < until && Present(s, BucketKey(r.client), r.time, r.tie)
    requires n < s[BucketKey(r.client)].value
    ensures var key := BucketKey(r.client);
      Admitted(s, lim, Repeat(n, r) + rest, r.client, from, until) ==
        n + Admitted(s[key := s[key].(value := s[key].value - n)], lim, rest, r.client, from, until)
    decreases n
  {
    var key := BucketKey(r.client);
    if n == 0 {
      assert Repeat(0, r) + rest == rest;
      assert s[key := s[key].(value := s[key].value - 0)] == s;
    } else {
      var run := Repeat(n, r) + rest;
      assert run[0] == r && run[1..] == Repeat(n - 1, r) + rest;
      var s' := After(s, lim, r);
      Volley(s', lim, r, n - 1, rest, from, until);
      assert s'[key := s'[key].(value := s'[key].value - (n - 1))] == s[key := s[key].(value := s[key].value - n)];
    }
  }

  /** The last instant at which a bucket that expires at `end` still counts: `end` itself if the window is one unit. */
  function Latest(lim: Limits, client: string, end: int): Request
    requires lim.window.Some?
  {
    if lim.window.value > 1 then Request(client, end - 1, false, Up) else Request(client, end, true, Up)
  }

  /** A first request opens a bucket, which is emptied just before it is gone; the next one is emptied at once. */
  function Busiest(lim: Limits, client: string): Run
    requires lim.window.Some?
  {
    var w, k := lim.window.value, lim.Quota();
    if k == 0 then []
    else
      [Request(client, 0, false, Up)]
      + (Repeat(k - 1, Latest(lim, client, w)) + Repeat(k, Request(client, w, false, Up)))
  }

  /** For every burst and window there is a run that attains the bound. */
  lemma {:induction false} BoundAttained(lim: Limits, client: string)
    requires lim.Valid() && lim.window.Some?
    ensures Ordered(Busiest(lim, client))
    ensures var from := Latest(lim, client, lim.window.value).time;
      Admitted(map[], lim, Busiest(lim, client), client, from, from + lim.window.value) ==
        if lim.Quota() == 0 then 0 else 2 * lim.Quota() - 1
  {
    BusiestOrdered(lim, client);
    var w, k, key := lim.window.value, lim.Quota(), BucketKey(client);
    if k > 0 {
      var first, from := Request(client, 0, false, Up), Latest(lim, client, w).time;
      var rest := Repeat(k - 1, Latest(lim, client, w)) + Repeat(k, Request(client, w, false, Up));
      assert Busiest(lim, client) == [first] + rest && ([first] + rest)[1..] == rest;
      assert After(map[], lim, first) == map[key := Entry(lim.burst - 1, Some(w))];
      LastBuckets(lim, client, w, from, from + w);
    }
  }

  lemma {:induction false} BusiestOrdered(lim: Limits, client: string)
    requires lim.Valid() && lim.window.Some?
    ensures Ordered(Busiest(lim, client))
  {
  }

  /** A used bucket is emptied at the last instant before it is gone, and the next one at time `end`. */
  lemma {:induction false} LastBuckets(lim: Limits, client: string, end: int, from: int, until: int)
    requires lim.Valid() && lim.Quota() > 0 && lim.window.Some?
    requires from <= Latest(lim, client, end).time && end < until
    ensures Admitted(map[BucketKey(client) := Entry(lim.burst - 1, Some(end))], lim,
                     Repeat(lim.Quota() - 1, Latest(lim, client, end))
                     + Repeat(lim.Quota(), Request(client, end, false, Up)),
                     client, from, until) == 2 * lim.Quota() - 1
  {
    var k, key := lim.Quota(), BucketKey(client);
    var s := map[key := Entry(lim.burst - 1, Some(end))];
    Volley(s, lim, Latest(lim, client, end), k - 1, Repeat(k, Request(client, end, false, Up)), from, until);
    assert s[key := s[key].(value := s[key].value - (k - 1))] == map[key := Entry(1, Some(end))];
    NextBucket(lim, client, end, from, until);
  }

  /** Once a bucket is over, a whole new quota is admitted at once. */
  lemma {:induction false} NextBucket(lim: Limits, client: string, now: int, from: int, until: int)
    requires lim.Valid() && lim.Quota() > 0 && lim.window.Some? && from <= now < until
    ensures Admitted(map[BucketKey(client) := Entry(1, Some(now))], lim,
                     Repeat(lim.Quota(), Request(client, now, false, Up)), client, from, until) == lim.Quota()
  {
    var k, key, late := lim.Quota(), BucketKey(client), Request(client, now, false, Up);
    var run, last := Repeat(k, late), Repeat(k - 1, late);
    assert run[0] == late && run[1..] == last && last + [] == last;
    var s := map[key := Entry(lim.burst - 1, Some(now + lim.window.value))];
    assert After(map[key := Entry(1, Some(now))], lim, late) == s;
    Volley(s, lim, late, k - 1, [], from, until);
  }
}
