# A model of the service gateway

The service gateway is an HTTP reverse proxy. It routes requests to applications, limits the
rate of clients, authenticates tokens, caches responses, and rewrites the links in JSON
responses so that they point back to the gateway. This project models the parts of it that are
algorithms or state machines, and proves what they guarantee over all inputs and all runs.

| file | part of the gateway |
|---|---|
| `JsonWalk.dfy`, `JsonLaws.dfy`, `JsonPlaces.dfy`, `JsonDecode.dfy` | the response rewriter's in-place walk over a JSON document |
| `Substitution.dfy`, `Expansion.dfy`, `Filling.dfy`, `Shadowing.dfy` | replacing the placeholders of a pattern, one after the other |
| `Routing.dfy`, `RoundTrip.dfy` | routing a request to a backend path, and turning links back |
| `Links.dfy` | from the configuration to a link in a response |
| `KeyCache.dfy` | the verification-key cache, as a system of any number of threads |
| `RateLimit.dfy`, `Clients.dfy` | the rate limiter, over a store that any number of gateways share, and who shares a bucket |
| `ExpiryCache.dfy`, `TokenStore.dfy` | `IsAuthenticated`, its expiry cache, the token store and its local cache |
| `ResponseCache.dfy` | the HTTP response cache |
| `Stack.dfy`, `Service.dfy`, `Outcomes.dfy` | the decorator stack, and the gateway as a whole |
| `Results.dfy` | result types that the parts share |

`dafny verify dfyconfig.toml` checks the whole project.

## What is proved

- **The walk.** For every document on the heap and every order in which the object loops visit
  their keys, the in-place walk ends as one recursive specification says
  (`JsonWalk.WalkJson`). What is removed is characterised exactly, every place of the output is
  traced back to one place of the input, and which places of the input go is said of the
  document alone (`JsonPlaces.PlacesExact`).
- **Routing.** Replacing placeholders one after the other is one simultaneous substitution, in
  any order. What the loops make of every value, harmless or not, is stated outright, and a path
  comes back if and only if its values do; which values always come back is characterised, and
  which parameter names are safe on either way. The results carry over from the configuration
  to an `href` in the client's document, for patterns and for path prefixes.
- **The key cache.** In every interleaving a key that is returned without fetching is no older
  than one that was unexpired at the check; fetches never overlap and keep `cacheTtl` apart.
- **The rate limiter.** Every run refines greedy windows per client; a client gets at most
  `2K - 1` requests in any interval of one window, where `K = max(0, burst - 1)`, and that is
  attained.
- **Tokens.** With one key, both caches together decide as the latest record and a fresh
  verification would. However the keys change, exactly when the local cache changes no decision
  is proved for every kind of responses stored.
- **The response cache.** Every hit replays the latest kept call since the last purge; with
  auto-flush the cache is transparent, and only with it.
- **The stack.** Exactly the stacks in which nothing but rate limiting stands outside
  authentication are guarded. In the configured stack the results above compose, over whole runs
  of all applications and beside any number of other gateways: an application that authenticates
  is reached only with a verified JWT, rate-limited or not; one that is rate-limited only with a
  token taken, and with bounded load per client. Exactly when all answers are current, and when
  each was made for the holder who gets it, is proved over all runs. What becomes of a single
  request is stated method by method and field by field (`Outcomes.dfy`).

## Where the code differs from what one would expect

Each of these is a lemma; the code is modelled as it is.

- `docs/configuration.md:76` calls `burst` the number of requests allowed in one window. The
  code refuses when the counter after the decrement is 0, so it admits `burst - 1`
  (`RateLimit.RequestRefines`). A window that the store does not accept blocks every client for
  ever (`RateLimit.BadWindowBlocks`): one that is not a positive whole number of seconds, and one
  of a million seconds or more, which is sent with an exponent (`RateLimit.LimitsOf`).
- A client without an `Authorization` header shares its bucket with anyone who sends a header
  that spells its address (`Clients.BucketsExact`, `Clients.AnonymousShared`).
- On the way back a value is used as a replacement template, so a `$` that begins a reference is
  lost (`RoundTrip.PatternRoundTripExact`, `Routing.PathRoundTripExact`, `RoundTrip.DollarExample`).
- A value that contains another parameter's placeholder may be substituted into, on either way
  (`RoundTrip.ForwardFills`, `RoundTrip.ValueSentExactly`, `RoundTrip.ValueReturnsExactly`,
  `RoundTrip.PlaceholderExample`).
- If the name of one parameter begins that of another, the wrong placeholder may be replaced
  (`Shadowing.RoutedExactly`, `Shadowing.PutBackExactly`).
- If the backend URL has a path of its own, links to it are not recognised by their pattern, and
  for a path prefix they are restored wrongly (`RoundTrip.BackendPathExact`,
  `Routing.PathBackendExact`).
- A routing path that ends in a slash costs the backend path its first slash, because only
  registration trims it (`Routing.PrefixStrippedExact`, `Routing.TrailingSlashExample`).
- The marker for "never expires" is stored as an `int` and asserted to be an `int64`: the second
  request with a valid JWT without an expiry panics (`ExpiryCache.AgreesExactly`).
- `HMSET` keeps the time to live of the record that it replaces, so a JWT without an expiry is
  lost from Redis when it replaces one with (`TokenStore.LocalCacheTransparentExactly`).
- An underscore in a URI can be taken for the separator of a cache identifier
  (`ResponseCache.IdentifiersExact`).
- The cache identifier does not tell holders apart: a protected application that caches serves
  one holder what the backend made for another (`Service.OwnAnswersExactly`).
- An application that caches next to one that changes the same resource without flushing serves
  stale answers (`Service.CurrentExactly`).
- `VerifyToken` wraps every error, so the filter for acceptable errors never applies: a JWT that
  does not verify is answered with 503 and not with 403 (`Stack.UnverifiedUnavailable`).

## Assumptions

- The key cache: sequential consistency, and a clock that does not go back.
- The rate limiter: `MULTI; SET; DECR; EXEC` is one atomic step at one instant of the store's
  clock. Whether a key outlives the very instant of its expiry is left open at every step.
- Tokens: the verdict of the verifier is a function of the JWT, the key and the time; the empty
  JWT, which stands for a missing record, is signed under no key. The key may change or be
  missing at every step, except in `ExpiryCache.CacheRefines`, `ExpiryCache.AgreesExactly` and
  `TokenStore.RunRefines`, which compare with verifying afresh and are for one key. The methods
  model failing commands; in the runs the store does not fail.
- The response cache: requests are served one after the other, and a handler adds its headers,
  then sets the status at most once, then writes the body.
- The backend, the URL parser, the JSON codec and the regular-expression engine are taken for
  what their documentation says, and enter as parameters or as functions on decoded values. The
  expressions are those the gateway builds: literals without metacharacters, `([^/]+?)` between
  `^` and `$`, and `/(.*)`. Which characters beyond ASCII may stand in the name of a `$` reference
  is a parameter of every result about it.

## Model

| member | source | states |
|---|---|---|
| `JsonWalk.WalkJson` | proxy/hostrewriter.go:200-257 | in place and in any order of keys, the walk returns `RemoveElement` exactly when the specification does, and otherwise leaves a tree on the heap that reads as the specification's document |
| `JsonWalk.WalkFields` | proxy/hostrewriter.go:203-232 | exactly the fields whose own walk is kept are in the result, with that value |
| `JsonWalk.WalkObject` | proxy/hostrewriter.go:202-232 | the object case: the partial mutation of an early return is never part of a kept document |
| `JsonWalk.RangeObject` | proxy/hostrewriter.go:203-231 | the loop returns early iff the object is inside links and has an unmappable string `href`, whichever key comes first |
| `JsonWalk.VisitKey` | proxy/hostrewriter.go:204-230 | one pass keeps the loop's invariant over visited, pending and deleted keys |
| `JsonWalk.VisitHref` | proxy/hostrewriter.go:204-217 | a mapped `href` is replaced, an unmappable or malformed one deleted, any other value left; only an unmappable one inside links removes the object |
| `JsonWalk.VisitChild` | proxy/hostrewriter.go:218-229 | any other key gets the walk of its value, or is deleted if that is removed |
| `JsonWalk.WalkArray` | proxy/hostrewriter.go:234-253 | the array case: the new list holds the walks of the elements that are kept, and is removed iff it is empty and the old one was not |
| `JsonWalk.VisitElement` | proxy/hostrewriter.go:239-248 | one element is appended or skipped, and the elements gathered so far stay as they are |
| `JsonLaws.RemovalExact` | proxy/hostrewriter.go:200-257 | a value is removed iff it is inside links and is an object with an unmappable `href` or a non-empty array of removed elements; outside links nothing is |
| `JsonLaws.WalkAllEmpty` | proxy/hostrewriter.go:250-252 | the output list is empty iff the input is, or all elements are removed inside links |
| `JsonLaws.KeysKept` | proxy/hostrewriter.go:203-232 | exactly which keys of a kept object survive |
| `JsonLaws.Survivors` | proxy/hostrewriter.go:239-248 | the positions of the elements that are not removed, increasing |
| `JsonLaws.ElementsKept` | proxy/hostrewriter.go:239-253 | the output list is the walks of the survivors, in order |
| `JsonLaws.OutputTracesBack` | proxy/hostrewriter.go:200-257 | every place of the output comes from one place of the input: a string `href` is the image of the original, other scalars are unchanged, objects lose keys only, and no non-empty array becomes empty |
| `JsonLaws.Rewrite` | proxy/hostrewriter.go:160-179 | a body that is not JSON passes unchanged, and any other is walked and never fails |
| `JsonDecode.Decode` | proxy/hostrewriter.go:160-166 | every document becomes a tree of new objects on the heap that reads as that document, which is all that the walk asks for |
| `JsonDecode.RewriteDocument` | proxy/hostrewriter.go:160-179 | decoded, walked in place and read back, every body is what the specification makes of it, and none fails |
| `JsonPlaces.PlacesExact` | proxy/hostrewriter.go:200-257 | in the walk of a whole body, a place not below an `href` key goes iff it or a place above it is an `href` key with a string that is not mapped, or a value that cannot stand in links (an object with an unmappable `href`, a non-empty array of such) on a path through `links` or `_links` |
| `Substitution.AlnumExact` | dispatcher/no_integration_dispatcher.go:163 | the characters of a parameter's name, listed |
| `Substitution.ReplaceBinds` | proxy/hostrewriter.go:45 | one textual replacement of `:n` binds exactly the parameters named `n` |
| `Substitution.SequentialIsSimultaneous` | dispatcher/pathbased.go:62-66 | the loop of replacements equals one simultaneous substitution |
| `Substitution.OrderIrrelevant` | proxy/hostrewriter.go:42-48 | the result does not depend on the order of the parameters, nor on how often one is listed |
| `Substitution.ColonFreeStable` | proxy/hostrewriter.go:42-48 | prefix-free names and values without `:` suffice for both |
| `Expansion.NoReferenceLiteral` | proxy/hostrewriter.go:45 | a value without a `$` reference is used literally, whichever characters count as letters |
| `Expansion.ReferenceCosts` | proxy/hostrewriter.go:45 | every `$` reference costs a dollar sign, and none is added |
| `Expansion.ExpansionIsIdentity` | proxy/hostrewriter.go:45 | a value comes back as it was iff no `$` of it begins a reference |
| `Expansion.NameCharacters` | proxy/hostrewriter.go:45 | ASCII letters, digits and the underscore may stand in the name of a reference; dollar signs and braces may not |
| `Expansion.ReferenceExact` | proxy/hostrewriter.go:45 | a `$` begins a reference iff a dollar sign, a longest name or a name in braces follows, and the reference is that long |
| `Expansion.ExpandForms` | proxy/hostrewriter.go:45 | `$$` becomes a dollar sign, a reference to group 0 the placeholder, any other nothing, and a `$` without one stays |
| `Expansion.ExpandPlainly` | proxy/hostrewriter.go:45 | every other character stays as it is |
| `Expansion.HasReferenceExact` | proxy/hostrewriter.go:45 | a value has a reference iff one of its dollar signs is followed by one of the three forms |
| `Filling.ReplaceSplits` | dispatcher/pathbased.go:65 | no replacement reaches across a slash |
| `Filling.ShowStep` | dispatcher/pathbased.go:64-66 | one replacement puts the value in place and substitutes into every value that is in place already |
| `Filling.LoopFills` | dispatcher/pathbased.go:62-66 | for all values, the loop fills the pattern at once with what each value has become by the replacements after its own |
| `Filling.FillInjective` | proxy/hostrewriter.go:188 | values without a slash can be told from the filled pattern |
| `Routing.Lex` | dispatcher/no_integration_dispatcher.go:163 | reads the parameters of a pattern, and printing the tokens gives the pattern back |
| `Routing.LexRead` | dispatcher/no_integration_dispatcher.go:163 | every parameter is found and read to its end |
| `Routing.LexUnique` | dispatcher/no_integration_dispatcher.go:163 | and no other reading of the pattern does that |
| `Routing.MatchExact` | proxy/hostrewriter.go:188 | the lazy matcher finds a split of the path into literals and segments, and finds one whenever there is one |
| `Routing.MatchFilled` | proxy/hostrewriter.go:188 | matching a filled target gives exactly the values that were filled in |
| `Routing.RegisterPatterns` | dispatcher/no_integration_dispatcher.go:162-183 | a route for every pattern, a mapping for every target, and each mapping leads to a pattern with that target, in any order of the patterns |
| `Routing.NewMappings` | proxy/hostrewriter.go:50-78 | the list holds an entry for each mapping and nothing else, in any order |
| `Routing.HandlePattern` | dispatcher/pathbased.go:62-69 | the target URL is the loop of replacements in the order of the parameters |
| `Routing.Repl` | proxy/hostrewriter.go:42-48 | the groups are put back once each, in some order |
| `Routing.RewriteUrl` | proxy/hostrewriter.go:181-198 | the first mapping that matches decides; the URL is unmappable iff none does; scheme and host become those of the request and the rest stays |
| `Routing.FirstMatchDecides` | proxy/hostrewriter.go:187-195 | the first mapping in the list that matches the link decides alone |
| `Routing.PathRoundTripExact` | dispatcher/no_integration_dispatcher.go:146-161 | the prefix is stripped on the way to the backend, and the path comes back iff the rest has no newline and no `$` reference |
| `Routing.PrefixStrippedExact` | dispatcher/pathbased.go:71-76 | for every routing path and request, the registered prefix is stripped iff the configured path has no trailing slash, or is all slashes and does not occur in the request |
| `Routing.TrailingSlashExample` | dispatcher/pathbased.go:71-76 | a routing path with a trailing slash yields a URL without the slash after the host |
| `Routing.PathRewritten` | proxy/hostrewriter.go:181-198 | for a path prefix `RewriteUrl` has one answer only: the prefix and what follows the first slash, or unmappable without one |
| `Routing.PathAnswers` | proxy/hostrewriter.go:181-198 | for a path prefix a link is unmappable iff it has no slash; any other, relative ones too, becomes the trimmed prefix and what follows its first slash, on the requested host, if that has no newline and no `$` reference |
| `Routing.TrimSlashesExact` | dispatcher/no_integration_dispatcher.go:147 | the trimmed path is the configured one without all slashes at its end |
| `Routing.PathBackendExact` | dispatcher/no_integration_dispatcher.go:146-161 | behind a path of the backend URL itself a link is rewritten with that path, and so restored iff there is none |
| `RoundTrip.ForwardFills` | dispatcher/pathbased.go:62-69 | for all values, the backend URL is the target filled at once with what the values have become, and is the plain filling iff none has changed |
| `RoundTrip.ValueSentExactly` | dispatcher/pathbased.go:62-66 | a value goes out unchanged whatever the other values are iff no placeholder that is replaced later occurs in it |
| `RoundTrip.PatternRoundTrip` | dispatcher/no_integration_dispatcher.go:162-183 | for all values and every order of the groups, the target matches the backend path, and rewriting it gives the requested path iff every value comes back as it was |
| `RoundTrip.HarmlessReturns` | proxy/hostrewriter.go:42-48 | values with neither a placeholder nor a `$` reference come back |
| `RoundTrip.ValueReturnsExactly` | proxy/hostrewriter.go:42-48 | a value comes back, whatever the other values and the order of the groups, iff it has no `$` reference and no other parameter's placeholder |
| `RoundTrip.PatternRoundTripExact` | proxy/hostrewriter.go:42-48 | for values without `:` the path comes back iff no value has a `$` reference |
| `RoundTrip.LinkRestored` | proxy/hostrewriter.go:181-198 | with any number of mappings in any order and for all values, a link to the backend path of a request becomes the public pattern filled with the values that come back, on the requested host |
| `RoundTrip.BackendPathExact` | proxy/hostrewriter.go:187-188 | a link to the backend path of a request, behind a path of the backend URL itself, is matched by its target iff there is no such path |
| `RoundTrip.DollarExample` | proxy/hostrewriter.go:45 | a value that does not come back because of a `$` |
| `RoundTrip.PlaceholderExample` | dispatcher/pathbased.go:64-66 | a value that is substituted into on the way out |
| `Shadowing.LoopHitsAll` | dispatcher/pathbased.go:62-66 | for all names and all values without `:`, the loop fills each placeholder with the value of the first name that begins it, followed by the rest of its name |
| `Shadowing.UnshadowedExact` | dispatcher/pathbased.go:62-66 | a parameter is hit by its own name first iff no name before it in the order is a proper prefix of it |
| `Shadowing.RoutedExactly` | dispatcher/pathbased.go:62-69 | all requests are routed right iff no name that is replaced earlier is a proper prefix of a parameter of the target |
| `Shadowing.PutBackExactly` | proxy/hostrewriter.go:42-48 | all links are put together right in every order of the groups iff no name begins another |
| `Links.OnlyOwnMapping` | dispatcher/no_integration_dispatcher.go:162-183 | of the mappings that registration builds, only the pattern's own matches the backend path of a request for it, if no other target does |
| `Links.HrefRestored` | proxy/hostrewriter.go:160-198 | from configured patterns to the client's document: an `href` that linked to the backend path of a request links to the requested path on the requested host |
| `Links.PathHrefRestored` | proxy/hostrewriter.go:160-198 | the same for a path prefix: the `href` becomes the rewritten path, which is the requested one iff the rest has no newline and no `$` reference |
| `Links.HrefSound` | proxy/hostrewriter.go:204-217 | every string `href` of the client's document is what the first matching mapping makes of the original link |
| `KeyCache.StepKeepsInv` | auth/jwt.go:35-66 | every step of every thread keeps the lock exclusive, the fetch log ordered, the two fields consistent, and each thread's own assertion |
| `KeyCache.RunKeepsInv` | auth/jwt.go:35-66 | so does every interleaving of any number of threads |
| `KeyCache.Freshness` | auth/jwt.go:40-49 | a key returned by the fast path or the locked recheck belongs to a fetch no older than one whose expiry lay ahead at the check, even between the two writes |
| `KeyCache.Staleness` | auth/jwt.go:40-49 | the fetch of such a key was recorded less than `cacheTtl` before the check, or began after it |
| `KeyCache.RunKeepsOwners` | auth/jwt.go:51-65 | in every interleaving, the fetch that a thread is engaged in or says was its own is one that it began |
| `KeyCache.SlowPath` | auth/jwt.go:51-65 | a thread that fetched returns what a fetch that it began itself received |
| `KeyCache.FetchesApart` | auth/jwt.go:44-65 | fetches never overlap, and after one recorded at time t none begins before t + `cacheTtl` |
| `KeyCache.PinnedExactly` | auth/jwt.go:35-38 | in every run a configured key that is not empty is what every call returns, and nothing is fetched; without one no call returns a configured key |
| `KeyCache.FailedFetch` | auth/jwt.go:51-60 | a call fails only after a fetch of its own that received no body |
| `KeyCache.FastPath` | auth/jwt.go:40-42 | with an unexpired key a call returns it in four steps of its own, whoever holds the lock |
| `KeyCache.SlowStart` | auth/jwt.go:40-45 | without a key, or with an expired one, it goes for the lock, and waits only while that is held |
| `KeyCache.OneFetcher` | auth/jwt.go:44-45 | at most one thread is inside the lock |
| `KeyCache.HolderRuns` | auth/jwt.go:44-65 | the thread inside the lock can always make a step |
| `Clients.SqueezeExact` | ratelimit/ratelimiting.go:71 | the header loses its spaces and nothing else |
| `Clients.BucketsExact` | ratelimit/ratelimiting.go:68-79 | exactly which requests share a bucket: the same header but for spaces, no header from the same address, or a header that spells the other's address |
| `Clients.AnonymousShared` | ratelimit/ratelimiting.go:68-76 | some header shares the bucket of an address iff the address has no space |
| `Clients.AnonymousCharged` | ratelimit/ratelimiting.go:78-103 | a request with such a header spends a token of the anonymous client |
| `RateLimit.LimitsOf` | ratelimit/ratelimiting.go:89 | the window is refused iff the duration is not positive, not whole seconds, or a million seconds or more |
| `RateLimit.DecrExact` | ratelimit/ratelimiting.go:93 | the counter goes down by one, a missing one counts as 0 and gets no expiry, and no other changes |
| `RateLimit.Throttler.TakeToken` | ratelimit/ratelimiting.go:78-103 | the store after the transaction, and the counter as result unless the connection failed |
| `RateLimit.Throttler.Handle` | ratelimit/ratelimiting.go:141-168 | 503 on an error, 429 when nothing is left, otherwise the handler is called; the two headers |
| `RateLimit.RequestRefines` | ratelimit/ratelimiting.go:154-167 | one request takes a bucket of n requests, with the value burst - n, to one of n + 1 or to a new one, and is admitted iff it is among the first max(0, burst - 1) of its bucket |
| `RateLimit.RequestIsolated` | ratelimit/ratelimiting.go:78-103 | a request leaves the counters of all other clients alone |
| `RateLimit.RunRefines` | ratelimit/ratelimiting.go:141-168 | in every run the verdicts on a client are those of its own greedy windows, and in every reachable store its bucket has an expiry and the value burst - n after n requests |
| `RateLimit.BucketsExpire` | ratelimit/ratelimiting.go:89 | every bucket of every reachable store has an expiry |
| `RateLimit.BadWindowBlocks` | ratelimit/ratelimiting.go:89-93 | with a window that the store refuses no request is ever admitted |
| `RateLimit.AdmittedFrom` | ratelimit/ratelimiting.go:78-103 | from any instant on, one window length admits at most what is left in the bucket and one quota more |
| `RateLimit.SlidingWindow` | ratelimit/ratelimiting.go:78-103 | in any interval of one window, at most 2K - 1 requests of a client are admitted |
| `RateLimit.BoundAttained` | ratelimit/ratelimiting.go:78-103 | for every burst and every accepted window, a run that attains the bound |
| `ExpiryCache.AuthenticationHandler.IsAuthenticated` | auth/handler.go:271-305 | the decision and the new expiry cache |
| `ExpiryCache.VerifiesWhen` | auth/jwt.go:68-91 | a JWT verifies iff there is a key, it is signed under it, and the time lies within its claims |
| `ExpiryCache.EntryVerified` | auth/handler.go:280-291 | every cached expiry is that of a JWT that an earlier call verified |
| `ExpiryCache.AcceptedWasVerified` | auth/handler.go:271-305 | under key rotation and any eviction, an accepted JWT was verified at or before the call and has not expired |
| `ExpiryCache.CacheRefines` | auth/jwt.go:68-91 | with one key, every call for a JWT with an expiry decides as verifying afresh would |
| `ExpiryCache.AgreesExactly` | auth/handler.go:271-305 | the decisions on a JWT agree with verifying afresh in every run iff it has an expiry or is not signed |
| `ExpiryCache.NoExpiryPanics` | auth/handler.go:274-283 | a valid JWT without an expiry: accepted, then a panic |
| `TokenStore.StorageExact` | auth/tokenstore.go:127-130 | a list of allowed applications survives storage iff no name has a `;` and it is not the single empty name |
| `TokenStore.JoinedForm` | auth/tokenstore.go:80 | the field holds the names with a `;` between them |
| `TokenStore.LiveWhen` | auth/tokenstore.go:85-90 | a record is there before its expiry and gone after it, and in that instant as the store has it |
| `TokenStore.WriteOutcome` | auth/tokenstore.go:65-93 | whatever becomes of the commands: when a write is reported as done, what Redis then has, and that the local cache changes only then |
| `TokenStore.RedisTokenStore.SetToken` | auth/tokenstore.go:65-93 | the hash and its time to live after the two commands, either of which may fail before or after it took effect, and an error iff the JWT does not verify or a command fails |
| `TokenStore.RedisTokenStore.GetToken` | auth/tokenstore.go:113-133 | the record while it lives, and empty fields otherwise; an error iff the command fails |
| `TokenStore.CacheDecorator.SetToken` | auth/tokenstore.go:164-172 | the local record changes only if the write is reported as done, though Redis may have changed all the same |
| `TokenStore.CacheDecorator.GetToken` | auth/tokenstore.go:184-198 | the local record if there is one, whatever its expiry and without asking Redis |
| `TokenStore.ReadsLatest` | auth/tokenstore.go:184-198 | both levels yield the latest record, or nothing once it has expired |
| `TokenStore.StepKeepsInv` | auth/tokenstore.go:164-198 | every event keeps Redis, the local cache and the expiry cache in step with the latest records |
| `TokenStore.RunRefines` | auth/handler.go:262-306 | in every run with one key, available throughout, and with or without the local cache, each decision is that of verifying the latest record afresh |
| `TokenStore.LocalCacheTransparent` | auth/tokenstore.go:164-198 | under any eviction and however the keys change or go missing, all decisions are the same with the local cache as without, if what is stored has a positive expiry and a storable list |
| `TokenStore.LocalCacheTransparentExactly` | auth/tokenstore.go:65-198 | over all runs from a positive time on that store responses of a kind, however the keys change or go missing, the local cache changes no decision iff no JWT of the kind with an expiry is valid together with one without, each under some key, and the lists of all responses acceptable under some key survive storage |
| `TokenStore.SetTimely` | auth/tokenstore.go:80-90 | unless the kind mixes such JWTs, every record leaves Redis when its JWT expires and not before |
| `TokenStore.ReadsAlike` | auth/tokenstore.go:184-198 | the two levels read differently only where neither answer is accepted |
| `TokenStore.NoExpiryDiffers` | auth/tokenstore.go:80-90 | whenever a kind mixes them, a run in which the two decisions differ |
| `TokenStore.LostListDiffers` | auth/tokenstore.go:127-130 | whenever a list does not survive storage, a run in which the two decisions differ |
| `ResponseCache.ResponseBuffer.Serve` | cache/cache.go:59-70 | the buffer holds the headers, the status and the concatenated writes of the handler |
| `ResponseCache.ResponseBuffer.Dump` | cache/cache.go:77-86 | every stored header is added to the client's, in any order of keys, then status and body follow |
| `ResponseCache.Record` | cache/cache.go:124-127 | a completed buffer holds exactly what the handler made |
| `ResponseCache.Cache.Handle` | cache/cache.go:113-156 | what the client gets, and the new cache, all of whose entries are complete and no errors |
| `ResponseCache.Cache.CallThrough` | cache/cache.go:123-141 | the response is kept iff the cache is in use and the status is below 400 |
| `ResponseCache.Cache.HandleUnsafe` | cache/cache.go:104-111 | the entry of the identifier is gone, and the handler's response goes to the client |
| `ResponseCache.HeadersAgree` | cache/cache.go:77-86 | a replayed response carries the headers that the handler itself would have sent, `X-Cache` apart |
| `ResponseCache.GetOutcome` | cache/cache.go:113-141 | the four ways to answer a GET request, with their `X-Cache` marks and what they leave in the cache |
| `ResponseCache.NoCachePasses` | cache/cache.go:117-124 | in every run a request that refuses the cache gets what the handler made and leaves the cache as it was |
| `ResponseCache.EntriesReplay` | cache/cache.go:113-156 | every entry of every reachable cache is what the latest kept call since the last purge made, with a status below 400 |
| `ResponseCache.HitsReplay` | cache/cache.go:142-146 | every hit replays exactly that response |
| `ResponseCache.Transparent` | cache/cache.go:104-156 | with auto-flush every run gives the client what it would get without a cache, under any eviction |
| `ResponseCache.TransparentExactly` | dispatcher/behaviours.go:46-55 | the cache is transparent in all runs iff auto-flush is on |
| `ResponseCache.IdentifiersExact` | cache/cache.go:94-102 | exactly which requests share an identifier |
| `Stack.Wrap` | dispatcher/no_integration_dispatcher.go:185-197 | the safe and the unsafe handler of a route have the layers of the enabled behaviours, the last added outermost |
| `Stack.ApplyAdds` | dispatcher/behaviours.go:46-83 | applying a behaviour puts its own layer on each handler, or none when the application switches it off |
| `Stack.LastAddedOutermost` | dispatcher/no_integration_dispatcher.go:66-70 | for all lists, the layers of later behaviours stand outside those of earlier ones |
| `Stack.RouteLayers` | dispatcher/no_integration_dispatcher.go:66-70 | the configured order: rate limiting, authentication, caching, from the outside |
| `Stack.Authorize` | auth/rest.go:94-119 | 503 on an error; a provider application always passes; otherwise the token must be accepted and, if it names applications, name this one |
| `Stack.TraceFollowsLayers` | dispatcher/no_integration_dispatcher.go:191-197 | in any stack each layer acts once, in order, and the next one acts iff it passes the request on |
| `Stack.GuardedExactly` | dispatcher/no_integration_dispatcher.go:66-70 | a stack lets requests reach the cache or the backend only after a check, from the initial state or from all states alike, iff nothing but rate limiting stands outside authentication |
| `Stack.SubjectStep` | auth/rest.go:81-132 | what a request that is subject to authentication goes through: the limiter if there is one, then the check, then the rest, each only if the one before lets it pass |
| `Stack.Gate` | auth/rest.go:81-119 | a protected request reaches the cache or the backend iff it takes a positive token, where there is rate limiting, and holds an accepted JWT for this application, and both come first |
| `Stack.UnverifiedUnavailable` | auth/handler.go:294-302 | with rate limiting or without, a request that gets to the check with a JWT is refused with 503 iff the JWT's expiry is not cached and it does not verify |
| `Stack.ChargedOnce` | dispatcher/behaviours.go:77-83 | every request to a rate-limited application is counted once, and costs one token |
| `Service.LimiterState` | ratelimit/ratelimiting.go:141-168 | in every run beside other gateways, each request finds the counters that the charges of all gateways have made |
| `Service.ChargesExact` | ratelimit/ratelimiting.go:141-168 | what is admitted here and elsewhere is together what the limiter admits of all charges in order |
| `Service.LoadBound` | ratelimit/ratelimiting.go:141-168 | in every run over all applications and beside any number of gateways, a client reaches the caches and backends behind the limiter, here and elsewhere together, at most 2K - 1 times in any interval of one window |
| `Service.OnlyVerifiedReach` | auth/rest.go:81-128 | in every run, under key rotation and any eviction, rate-limited or not, a protected request that reaches the cache or the backend presents an unexpired JWT that was verified, for this application, and the backend is given that JWT |
| `Service.EntrySourced` | cache/cache.go:113-141 | every response cached in a run was made by the backend for a safe request with that identifier to a caching application |
| `Service.AnswerSourced` | cache/cache.go:113-156 | every answer in a run was made by the backend, now or earlier for the same identifier |
| `Stack.CacheLayersAgree` | cache/cache.go:104-156 | the cache layers of the stack are the response cache's decorators |
| `Service.PurgedOnCall` | cache/cache.go:104-111 | an unsafe request that reaches the backend through a flushing layer leaves no entry for its identifier |
| `Service.AnswersCurrent` | cache/cache.go:104-156 | in every run in which unsafe requests flush wherever their identifier is cached for someone, a request that is answered gets what the backend would answer at that moment |
| `Service.CurrentExactly` | dispatcher/behaviours.go:46-55 | all answers in all runs are current iff, wherever a caching application serves an identifier, all applications that serve it flush |
| `Service.OwnAnswersExactly` | cache/cache.go:94-102 | all answers to protected requests in all runs were made for the holder of the request's JWT iff the application does not cache, or does not authenticate at all |
| `Service.SharedAnswer` | cache/cache.go:113-156 | with caching, a run in which one holder gets what was made for another |
| `Outcomes.LimiterOutcome` | ratelimit/ratelimiting.go:146-167 | a rate-limited application refuses with 503 if the store fails and 429 if no token is left, and does nothing else then; any other request is handed on |
| `Outcomes.AnonymousOutcome` | auth/rest.go:102-110 | without a token a request gets through iff the application is the authentication service or shares its URL, which is not empty; any other refuses it with 403 |
| `Outcomes.NeverExempt` | auth/rest.go:102-110 | an application without a URL that is not the service is never exempt |
| `Outcomes.UnreadableOutcome` | auth/rest.go:96-100 | a token that cannot be read is refused with 503 |
| `Outcomes.CachedTokenOutcome` | auth/handler.go:271-278 | what becomes of a request whose JWT's expiry is cached: by that expiry, the allowed applications and the exemption |
| `Outcomes.NewTokenOutcome` | auth/handler.go:279-305 | what becomes of any other request with a token: by the signature, the claims, the allowed applications and the exemption |
| `Outcomes.UncheckedOutcome` | auth/rest.go:82-85 | an OPTIONS request, and any to an application without authentication, gets through with no JWT and no entry in the expiry cache |
| `Outcomes.MethodOutcome` | dispatcher/no_integration_dispatcher.go:199-214 | for each of the seven methods by name: whether the backend or the cache answers, and what is cached then |
| `Outcomes.RefusedOutcome` | cache/cache.go:104-156 | a request that is refused leaves the response cache as it was |

## Left out

- `Authenticate`, the JavaScript hook and the exchange with the authentication provider: foreign calls and I/O.
- Signature checking, RSA, base32 and randomness: the verifier is an abstract verdict with claims, and `AddToken` is `SetToken` with a name that it makes up.
- Token rewriting of provider responses and the authentication routes of auth/rest.go; that a provider application's answer may become a 500 is not modelled.
- URL parsing and escaping, JSON text, general regular expressions, and matching a target with metacharacters.
- The walk takes `RewriteUrl` as a function of the URL, any of its possible answers. Where the order of the groups matters (a value with a placeholder) two equal links of one document could be rewritten differently.
- The branch of `walkJson` for errors other than `RemoveElement`, which nothing in it can raise.
- JSON numbers are reals; the rounding of the decoder is not modelled.
- Weak-memory effects of the unlocked reads in auth/jwt.go, and clocks that jump.
- The status code of the key server's answer, which the code does not look at either.
- The width of the counter: Redis integers are taken as unbounded.
- Failing commands of the store in the runs of `TokenStore.dfy` (the methods model them), and several gateways that write the same token.
- `GetAllTokens` and the admin API.
- Errors of `IsAuthenticated` are told apart from refusals, not from each other.
- The branches of the response cache for a foreign entry type and for errors of the LRU library; its configured `ttl`, which it does not use.
- Concurrent requests to the response cache, and `HEAD` or `OPTIONS` answers that differ from `GET` under the same identifier, which the transparency hypotheses exclude.
- Headers that the decorators add (`X-Cache`, `X-RateLimit`) are modelled for each decorator and not in `Stack.dfy` and `Service.dfy`.
- Patterns in which a parameter is followed by something else than a slash or the end. The round trip is for prefix-free names and the same parameters on both sides; for other names each way is characterised on its own.
- The dedicated OPTIONS handler, the router itself, and request listeners.
- dispatcher/consul_dispatcher.go, which repeats the registration modelled here, and dispatcher/hostbased.go, which is commented out.
- proxy/handler.go (the upstream call), main, monitoring, logging, configuration files, the command-line tool and the Helm chart.
