/**
  The response cache (cache/cache.go): GET requests are answered from memory, and requests
  that may change something purge the entry of their identifier.
 */
module ResponseCache {

  import opened Results

  type Headers = map<string, seq<string>>

  function Values(h: Headers, key: string): seq<string> {
    if key in h then h[key] else []
  }

  /** http.Header.Add. */
  function Add(h: Headers, key: string, value: string): Headers {
    h[key := Values(h, key) + [value]]
  }

  function AddAll(h: Headers, key: string, values: seq<string>): Headers {
    if values == [] then h else h[key := Values(h, key) + values]
  }

  lemma {:induction false} AddAllSnoc(h: Headers, key: string, values: seq<string>, value: string)
    ensures Add(AddAll(h, key, values), key, value) == AddAll(h, key, values + [value])
  {
    assert Values(h, key) + values + [value] == Values(h, key) + (values + [value]);
    assert values == [] ==> Values(h, key) + [value] == Values(h, key) + (values + [value]);
  }

  /** Every header of `more` added to `h`. */
  function Merge(h: Headers, more: Headers): Headers {
    map k | k in h.Keys + more.Keys && (k in h || more[k] != []) :: Values(h, k) + Values(more, k)
  }

  datatype Response = Response(status: int, headers: Headers, body: string)

  /**
    What a handler does to its response writer: it adds headers, sets the status at most once,
    and then writes the body in pieces.
   */
  datatype Script = Script(headers: seq<(string, string)>, status: Option<int>, chunks: seq<string>)

  function AddPairs(h: Headers, pairs: seq<(string, string)>): Headers
    decreases pairs
  {
    if pairs == [] then h else AddPairs(Add(h, pairs[0].0, pairs[0].1), pairs[1..])
  }

  function Concat(chunks: seq<string>): string {
    if chunks == [] then "" else chunks[0] + Concat(chunks[1..])
  }

  /** The response that a handler makes. */
  function Made(script: Script): Response {
    var status := if script.status.Some? then script.status.value else 200;
    Response(status, AddPairs(map[], script.headers), Concat(script.chunks))
  }

  /** `now` is `h` with the headers of `more` added, except those of `todo`. */
  ghost predicate Dumped(h: Headers, more: Headers, todo: set<string>, now: Headers) {
    && (forall k :: k in now <==> k in h || (k in more && k !in todo && more[k] != []))
    && (forall k | k in now :: now[k] == Values(h, k) + if k in todo then [] else Values(more, k))
  }

  lemma {:induction false} DumpedMore(h: Headers, more: Headers, todo: set<string>, now: Headers, key: string)
    requires Dumped(h, more, todo, now) && todo <= more.Keys && key in todo
    ensures Dumped(h, more, todo - {key}, AddAll(now, key, more[key]))
  {
  }

  // ------------------------------------------------------------------ the buffer and the client

  /** The client's side of a request. */
  class ResponseWriter {
    var header: Headers
    var status: int
    var body: string

    constructor ()
      ensures header == map[] && status == 200 && body == ""
    {
      header, status, body := map[], 200, "";
    }

    method AddHeaders(pairs: seq<(string, string)>)
      modifies this`header
      ensures header == AddPairs(old(header), pairs)
    {
      for i := 0 to |pairs|
        invariant AddPairs(header, pairs[i..]) == AddPairs(old(header), pairs)
      {
        assert pairs[i..][1..] == pairs[i + 1..];
        header := Add(header, pairs[i].0, pairs[i].1);
      }
    }

    method WriteAll(chunks: seq<string>)
      modifies this`body
      ensures body == old(body) + Concat(chunks)
    {
      for i := 0 to |chunks|
        invariant body + Concat(chunks[i..]) == old(body) + Concat(chunks)
      {
        assert chunks[i..][1..] == chunks[i + 1..];
        body := body + chunks[i];
      }
    }
  }

  class ResponseBuffer {
    var body: string
    var buf: string
    var header: Headers
    var status: int
    var complete: bool

    constructor ()
      ensures body == buf == "" && header == map[] && status == 200 && !complete
    {
      body, buf, header, status, complete := "", "", map[], 200, false;
    }

    ghost function Stored(): Response
      reads this
    {
      Response(status, header, body)
    }

    method WriteHeader(status: int)
      modifies this`status
      ensures this.status == status
    {
      this.status := status;
    }

    method Write(b: string)
      modifies this`buf
      ensures buf == old(buf) + b
    {
      buf := buf + b;
    }

    /** Reading the buffer empties it. */
    method Complete()
      modifies this`body, this`buf, this`complete
      ensures body == old(buf) && buf == "" && complete
    {
      body, buf := buf, "";
      complete := true;
    }

    /** The handler writes its response into the buffer. */
    method Serve(script: Script)
      requires buf == "" && header == map[] && status == 200
      modifies this`buf, this`header, this`status
      ensures header == Made(script).headers && status == Made(script).status && buf == Made(script).body
    {
      AddHeaders(script.headers);
      if script.status.Some? {
        WriteHeader(script.status.value);
      }
      WriteAll(script.chunks);
    }

    method AddHeaders(pairs: seq<(string, string)>)
      modifies this`header
      ensures header == AddPairs(old(header), pairs)
    {
      for i := 0 to |pairs|
        invariant AddPairs(header, pairs[i..]) == AddPairs(old(header), pairs)
      {
        assert pairs[i..][1..] == pairs[i + 1..];
        header := Add(header, pairs[i].0, pairs[i].1);
      }
    }

    method WriteAll(chunks: seq<string>)
      modifies this`buf
      ensures buf == old(buf) + Concat(chunks)
    {
      for i := 0 to |chunks|
        invariant buf + Concat(chunks[i..]) == old(buf) + Concat(chunks)
      {
        assert chunks[i..][1..] == chunks[i + 1..];
        Write(chunks[i]);
      }
    }

    /** Replays the response, with the header keys in any order. */
    method Dump(rw: ResponseWriter)
      modifies rw
      ensures rw.header == Merge(old(rw.header), header)
      ensures rw.status == status && rw.body == old(rw.body) + body
    {
      var todo := header.Keys;
      while todo != {}
        invariant todo <= header.Keys && Dumped(old(rw.header), header, todo, rw.header)
        invariant rw.body == old(rw.body)
      {
        var key :| key in todo;
        DumpedMore(old(rw.header), header, todo, rw.header, key);
        todo := todo - {key};
        DumpKey(rw, key);
      }
      rw.status := status;
      rw.body := rw.body + body;
    }

    method DumpKey(rw: ResponseWriter, key: string)
      requires key in header
      modifies rw`header
      ensures rw.header == AddAll(old(rw.header), key, header[key])
    {
      var values := header[key];
      for i := 0 to |values|
        invariant rw.header == AddAll(old(rw.header), key, values[..i])
      {
        assert values[..i + 1] == values[..i] + [values[i]];
        AddAllSnoc(old(rw.header), key, values[..i], values[i]);
        rw.header := Add(rw.header, key, values[i]);
      }
      assert values[..|values|] == values;
    }
  }

  // ------------------------------------------------------------------ the middleware

  /** `identifierForRequest`. */
  function Identifier(uri: string, accept: string): string {
    if accept == "" then uri else uri + "_" + accept
  }

  /** The cache as a value: a response for each identifier. */
  type Store = map<string, Response>

  /** The `X-Cache` header. */
  const HIT := "HIT"
  const MISS := "MISS"
  const PASS := "PASS"
  const PURGED := "PURGED"

  /** How a GET request is answered, where `made` is what the handler makes if it is called. */
  function Label(store: Store, id: string, noCache: bool, made: Response): string {
    if !noCache && id in store then HIT
    else if noCache || made.status >= 400 then PASS
    else MISS
  }

  function Answer(store: Store, id: string, noCache: bool, made: Response): Response {
    if !noCache && id in store then store[id] else made
  }

  function StoreAfter(store: Store, id: string, noCache: bool, made: Response): Store {
    if Label(store, id, noCache, made) == MISS then store[id := made] else store
  }

  /** Calls the handler on a new buffer and completes it. */
  method Record(script: Script) returns (buf: ResponseBuffer)
    ensures fresh(buf) && buf.complete && buf.Stored() == Made(script)
  {
    buf := new ResponseBuffer();
    buf.Serve(script);
    buf.Complete();
  }

  class Cache {
    var entries: map<string, ResponseBuffer>

    constructor ()
      ensures entries == map[]
    {
      entries := map[];
    }

    /** Every entry is complete and no error. */
    ghost predicate Valid()
      reads this, entries.Values
    {
      forall id | id in entries :: entries[id].complete && entries[id].status < 400
    }

    ghost function Contents(): Store
      reads this, entries.Values
    {
      map id | id in entries :: entries[id].Stored()
    }

    /** The LRU cache drops entries to make room. */
    method Evict(gone: set<string>)
      requires Valid()
      modifies this
      ensures Valid() && Contents() == old(Contents()) - gone
    {
      entries := entries - gone;
    }

    method Insert(id: string, buf: ResponseBuffer)
      requires Valid() && buf.complete && buf.status < 400
      modifies this
      ensures Valid() && Contents() == old(Contents())[id := buf.Stored()]
    {
      entries := entries[id := buf];
    }

    /** `DecorateHandler`: what the client gets for a GET request. */
    method Handle(id: string, noCache: bool, script: Script, rw: ResponseWriter)
      requires Valid()
      modifies this, rw
      ensures Valid()
      ensures Contents() == StoreAfter(old(Contents()), id, noCache, Made(script))
      ensures var answer := Answer(old(Contents()), id, noCache, Made(script));
        && rw.header ==
             Merge(Add(old(rw.header), "X-Cache", Label(old(Contents()), id, noCache, Made(script))), answer.headers)
        && rw.status == answer.status && rw.body == old(rw.body) + answer.body
    {
      ghost var contents := Contents();
      if noCache || id !in entries {
        CallThrough(id, !noCache, script, rw);
      } else {
        rw.header := Add(rw.header, "X-Cache", HIT);
        entries[id].Dump(rw);
        assert Contents() == contents;
      }
    }

    /** The handler is called, and its response is kept if the cache is in use and it is no error. */
    method CallThrough(id: string, useCache: bool, script: Script, rw: ResponseWriter)
      requires Valid()
      modifies this, rw
      ensures var keep := useCache && Made(script).status < 400;
        && Valid() && Contents() == (if keep then old(Contents())[id := Made(script)] else old(Contents()))
        && rw.header == Merge(Add(old(rw.header), "X-Cache", if keep then MISS else PASS), Made(script).headers)
      ensures rw.status == Made(script).status && rw.body == old(rw.body) + Made(script).body
    {
      ghost var contents := Contents();
      var buf := Record(script);
      assert Contents() == contents;
      if useCache && buf.status < 400 {
        rw.header := Add(rw.header, "X-Cache", MISS);
        assert Contents() == contents;
        Insert(id, buf);
        contents := contents[id := Made(script)];
      } else {
        rw.header := Add(rw.header, "X-Cache", PASS);
      }
      assert Contents() == contents;
      buf.Dump(rw);
      assert Contents() == contents;
    }

    /** `DecorateUnsafeHandler`: purges, and lets the handler write to the client. */
    method HandleUnsafe(id: string, script: Script, rw: ResponseWriter)
      requires Valid()
      modifies this, rw
      ensures Valid() && Contents() == old(Contents()) - {id}
      ensures rw.header == AddPairs(Add(old(rw.header), "X-Cache", "PURGED"), script.headers)
      ensures rw.status == Made(script).status && rw.body == old(rw.body) + Made(script).body
    {
      entries := entries - {id};
      rw.header := Add(rw.header, "X-Cache", PURGED);
      ServeDirectly(script, rw);
    }
  }

  /** The handler writes to the client itself. */
  method ServeDirectly(script: Script, rw: ResponseWriter)
    modifies rw
    ensures rw.header == AddPairs(old(rw.header), script.headers)
    ensures rw.status == Made(script).status && rw.body == old(rw.body) + Made(script).body
  {
    rw.AddHeaders(script.headers);
    rw.status := if script.status.Some? then script.status.value else 200;
    rw.WriteAll(script.chunks);
  }

  // ------------------------------------------------------------------ what the client can tell

  lemma {:induction false} ValuesOfPairs(h: Headers, pairs: seq<(string, string)>, key: string)
    ensures Values(AddPairs(h, pairs), key) == Values(h, key) + Values(AddPairs(map[], pairs), key)
    decreases pairs
  {
    if pairs != [] {
      var first, rest := Add(map[], pairs[0].0, pairs[0].1), pairs[1..];
      ValuesOfPairs(Add(h, pairs[0].0, pairs[0].1), rest, key);
      ValuesOfPairs(first, rest, key);
      assert Values(Add(h, pairs[0].0, pairs[0].1), key) == Values(h, key) + Values(first, key);
    }
  }

  /** A response that is replayed carries the headers that the handler would have sent itself, `X-Cache` apart. */
  lemma {:induction false} HeadersAgree(h: Headers, mark: string, script: Script, key: string)
    requires key != "X-Cache"
    ensures Values(Merge(Add(h, "X-Cache", mark), Made(script).headers), key) ==
            Values(AddPairs(h, script.headers), key)
  {
    ValuesOfPairs(h, script.headers, key);
  }

  // ------------------------------------------------------------------ every hit replays

  /** A request: a GET whose handler would make `made`, or one that may change something. */
  datatype Kind = Get(noCache: bool) | Unsafe
  datatype Request = Request(kind: Kind, id: string, made: Response, gone: set<string>)

  /** The cache just before request `i`, after whatever it dropped. */
  function StoreAt(run: seq<Request>, i: nat, autoFlush: bool): Store
    requires i < |run|
  {
    (if i == 0 then map[] else After(StoreAt(run, i - 1, autoFlush), run[i - 1], autoFlush)) - run[i].gone
  }

  function After(store: Store, r: Request, autoFlush: bool): Store {
    match r.kind
    case Get(noCache) => StoreAfter(store, r.id, noCache, r.made)
    case Unsafe => if autoFlush then store - {r.id} else store
  }

  function LabelAt(run: seq<Request>, i: nat, autoFlush: bool): string
    requires i < |run| && run[i].kind.Get?
  {
    Label(StoreAt(run, i, autoFlush), run[i].id, run[i].kind.noCache, run[i].made)
  }

  function AnswerAt(run: seq<Request>, i: nat, autoFlush: bool): Response
    requires i < |run|
  {
    match run[i].kind
    case Get(noCache) => Answer(StoreAt(run, i, autoFlush), run[i].id, noCache, run[i].made)
    case Unsafe => run[i].made
  }

  /** The latest request before `i` that called the handler for `id` and was kept, unless `id` was purged since. */
  function LatestKept(run: seq<Request>, i: nat, id: string, autoFlush: bool): Option<nat>
    requires i <= |run|
  {
    if i == 0 then None
    else
      var r := run[i - 1];
      if r.id == id && r.kind.Unsafe? && autoFlush then None
      else if r.id == id && r.kind.Get? && LabelAt(run, i - 1, autoFlush) == MISS then Some(i - 1)
      else LatestKept(run, i - 1, id, autoFlush)
  }

  /** Every entry of every reachable cache is what the latest kept call made, and is no error. */
  lemma {:induction false} EntriesReplay(run: seq<Request>, i: nat, id: string, autoFlush: bool)
    requires i < |run| && id in StoreAt(run, i, autoFlush)
    ensures var j := LatestKept(run, i, id, autoFlush);
      j.Some? && j.value < i && StoreAt(run, i, autoFlush)[id] == run[j.value].made && run[j.value].made.status < 400
    decreases i
  {
    var r := run[i - 1];
    if !(r.id == id && r.kind.Get? && LabelAt(run, i - 1, autoFlush) == MISS) {
      EntriesReplay(run, i - 1, id, autoFlush);
    }
  }

  /** Every hit replays exactly the response of the latest kept call since the last purge. */
  lemma {:induction false} HitsReplay(run: seq<Request>, i: nat, autoFlush: bool)
    requires i < |run| && run[i].kind.Get? && LabelAt(run, i, autoFlush) == HIT
    ensures var j := LatestKept(run, i, run[i].id, autoFlush);
      j.Some? && j.value < i && AnswerAt(run, i, autoFlush) == run[j.value].made
  {
    EntriesReplay(run, i, run[i].id, autoFlush);
  }

  /**
    The four ways to answer a GET request: a hit is replayed and changes nothing; a miss is
    kept; a request that refuses the cache, and an error, pass through and change nothing.
   */
  lemma {:induction false} GetOutcome(store: Store, id: string, noCache: bool, made: Response)
    ensures var mark, answer := Label(store, id, noCache, made), Answer(store, id, noCache, made);
      var after := StoreAfter(store, id, noCache, made);
      if noCache then mark == "PASS" && answer == made && after == store
      else if id in store then mark == "HIT" && answer == store[id] && after == store
      else if made.status < 400 then mark == "MISS" && answer == made && after == store[id := made]
      else mark == "PASS" && answer == made && after == store
  {
  }

  /** In every run a request that refuses the cache gets what the handler made. */
  lemma {:induction false} NoCachePasses(run: seq<Request>, i: nat, autoFlush: bool)
    requires i < |run| && run[i].kind == Get(true)
    ensures LabelAt(run, i, autoFlush) == "PASS" && AnswerAt(run, i, autoFlush) == run[i].made
    ensures i + 1 < |run| ==> StoreAt(run, i + 1, autoFlush) == StoreAt(run, i, autoFlush) - run[i + 1].gone
  {
    GetOutcome(StoreAt(run, i, autoFlush), run[i].id, true, run[i].made);
  }

  // ------------------------------------------------------------------ transparency

  /** What the backend would answer to a GET of each identifier. */
  type Backend = string -> Response

  /** Between requests only an unsafe request changes the backend, and only for its own identifier. */
  ghost predicate Serves(run: seq<Request>, backend: seq<Backend>) {
    && |backend| == |run|
    && (forall i | 0 <= i < |run| && run[i].kind.Get? :: run[i].made == backend[i](run[i].id))
    && (forall i, j | 0 <= i < j < |run| && j == i + 1 :: Changes(run[i], backend[i], backend[j]))
  }

  ghost predicate Changes(r: Request, before: Backend, after: Backend) {
    forall id | !(r.kind.Unsafe? && r.id == id) :: after(id) == before(id)
  }

  lemma {:induction false} StoreCurrent(run: seq<Request>, backend: seq<Backend>, i: nat, id: string)
    requires Serves(run, backend) && i < |run| && id in StoreAt(run, i, true)
    ensures StoreAt(run, i, true)[id] == backend[i](id)
    decreases i
  {
    var r := run[i - 1];
    assert Changes(r, backend[i - 1], backend[i]);
    if id in StoreAt(run, i - 1, true) {
      StoreCurrent(run, backend, i - 1, id);
    }
  }

  /** With auto-flush the client gets, in every run and under any eviction, what it would get without a cache. */
  lemma {:induction false} Transparent(run: seq<Request>, backend: seq<Backend>, i: nat)
    requires Serves(run, backend) && i < |run|
    ensures AnswerAt(run, i, true) == run[i].made
  {
    if run[i].kind.Get? && run[i].id in StoreAt(run, i, true) {
      StoreCurrent(run, backend, i, run[i].id);
    }
  }

  ghost predicate AlwaysTransparent(autoFlush: bool) {
    forall run: seq<Request>, backend: seq<Backend>, i: nat | Serves(run, backend) && i < |run| ::
      AnswerAt(run, i, autoFlush) == run[i].made
  }

  /** Without auto-flush a response outlives the change that made it stale. */
  lemma {:induction false} TransparentExactly(autoFlush: bool)
    ensures AlwaysTransparent(autoFlush) <==> autoFlush
  {
    if autoFlush {
      forall run: seq<Request>, backend: seq<Backend>, i: nat | Serves(run, backend) && i < |run|
        ensures AnswerAt(run, i, autoFlush) == run[i].made
      {
        Transparent(run, backend, i);
      }
    } else {
      var before, after := Response(200, map[], "old"), Response(200, map[], "new");
      var run := [Request(Get(false), "/x", before, {}), Request(Unsafe, "/x", after, {}),
                  Request(Get(false), "/x", after, {})];
      var backend: seq<Backend> := [_ => before, _ => before, id => if id == "/x" then after else before];
      assert Serves(run, backend);
      assert StoreAt(run, 0, false) == map[];
      assert StoreAt(run, 1, false) == map["/x" := before];
      assert StoreAt(run, 2, false) == map["/x" := before];
      assert AnswerAt(run, 2, false) == before && before.body[0] != after.body[0];
    }
  }

  // ------------------------------------------------------------------ identifiers

  /** One request's URI begins with the other's and an underscore, and the rest looks like its `Accept` header. */
  predicate Absorbs(uri: string, accept: string, uri': string, accept': string) {
    && accept != "" && |uri| < |uri'|
    && uri'[..|uri|] == uri && uri'[|uri|] == '_' && accept == Identifier(uri'[|uri| + 1..], accept')
  }

  /**
    Exactly which requests share an entry: the same ones, and those where an underscore of
    one URI is taken for the separator.
   */
  lemma {:induction false} IdentifiersExact(uri: string, accept: string, uri': string, accept': string)
    ensures Identifier(uri, accept) == Identifier(uri', accept') <==>
      (uri == uri' && accept == accept') || Absorbs(uri, accept, uri', accept') || Absorbs(uri', accept', uri, accept)
  {
    if |uri| < |uri'| {
      LongerUri(uri, accept, uri', accept');
    } else if |uri'| < |uri| {
      LongerUri(uri', accept', uri, accept);
    } else {
      var a, b := Identifier(uri, accept), Identifier(uri', accept');
      assert a[..|uri|] == uri && b[..|uri|] == uri';
      assert a == b ==> a[|uri|..] == b[|uri|..];
      assert accept != "" ==> a[|uri|..] == "_" + accept && a[|uri|..][1..] == accept;
      assert accept' != "" ==> b[|uri|..] == "_" + accept' && b[|uri|..][1..] == accept';
    }
  }

  lemma {:induction false} LongerUri(uri: string, accept: string, uri': string, accept': string)
    requires |uri| < |uri'|
    ensures Identifier(uri, accept) == Identifier(uri', accept') <==> Absorbs(uri, accept, uri', accept')
  {
    var n, a, b := |uri|, Identifier(uri, accept), Identifier(uri', accept');
    assert uri' == uri'[..n] + [uri'[n]] + uri'[n + 1..];
    assert b == uri'[..n] + [uri'[n]] + Identifier(uri'[n + 1..], accept');
    if accept != "" {
      assert a == uri + ['_'] + accept;
      assert a[..n] == uri && a[n] == '_' && a[n + 1..] == accept;
    }
    assert b[..n] == uri'[..n] && b[n] == uri'[n] && b[n + 1..] == Identifier(uri'[n + 1..], accept');
  }
}
