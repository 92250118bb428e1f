/**
  From the configuration to a link in a response: the mappings that registration builds
  (dispatcher/no_integration_dispatcher.go), the rewriter that uses them, and its walk over
  the document (proxy/hostrewriter.go), taken together.
 */
module Links {
  import opened Results
  import opened Substitution
  import opened Expansion
  import opened Filling
  import opened Routing
  import opened RoundTrip
  import opened JsonWalk
  import opened JsonLaws

  /** How URLs are read and printed. */
  datatype Syntax = Syntax(parse: string -> Option<Url>, show: Url -> string)

  function Printed(syntax: Syntax, r: UrlResult<Url>): UrlResult<string> {
    match r
    case Mapped(url) => Mapped(syntax.show(url))
    case Unmappable => Unmappable
    case Malformed => Malformed
  }

  /** `answer` is what `RewriteUrl` may make of the link `s` in the response to `req`. */
  ghost predicate Answers(
    words: Words, syntax: Syntax, mappings: seq<Mapping>, req: Url, s: string, answer: UrlResult<string>)
  {
    exists r :: MayAnswer(words, mappings, syntax.parse(s), req, r) && answer == Printed(syntax, r)
  }

  /** The rewriter of one response: whatever it answers is an answer of `RewriteUrl`. */
  ghost predicate Implements(words: Words, syntax: Syntax, mappings: seq<Mapping>, req: Url, rw: Rewriter) {
    forall s :: Answers(words, syntax, mappings, req, s, rw(s))
  }

  /** The document that the client gets. */
  function Output(rw: Rewriter, j: Json): Json {
    RemovalExact(rw, j, false);
    Walk(rw, j, false).value
  }

  /** The mappings that `NewHostRewriter` makes of what `RegisterApplication` builds. */
  ghost predicate Configured(patterns: map<string, string>, mappings: seq<Mapping>) {
    exists mapping :: Inverts(patterns, mapping) && Lists(mapping, mappings)
  }

  /** No other pattern's target matches the path. */
  ghost predicate Unambiguous(patterns: map<string, string>, pattern: string, path: string) {
    forall q | q in patterns && q != pattern :: Match(Lex(patterns[q]), path).None?
  }

  /** Among all mappings only that of the pattern matches the backend path of a request for it. */
  lemma {:induction false} OnlyOwnMapping(
    patterns: map<string, string>, mappings: seq<Mapping>, pattern: string, path: string)
    requires Configured(patterns, mappings) && pattern in patterns && Unambiguous(patterns, pattern, path)
    requires Match(Lex(patterns[pattern]), path).Some?
    ensures OnlyMatch(mappings, Mapping(Anchored(Lex(patterns[pattern])), pattern), path)
  {
    var mapping :| Inverts(patterns, mapping) && Lists(mapping, mappings);
    var e := Anchored(Lex(patterns[pattern]));
    assert e in mapping && mapping[e] == pattern;
    forall other | other in mappings && other != Mapping(e, pattern)
      ensures Find(other.expr, path).None?
    {
      assert mapping[other.expr] != pattern;
    }
  }

  /**
    The whole way: in the document that the client gets, an `href` that linked to the backend
    path of a request links to the path that was requested, on the requested host.
   */
  lemma {:induction false} HrefRestored(
    words: Words, syntax: Syntax, backendUrl: string, patterns: map<string, string>, mappings: seq<Mapping>,
    req: Url, rw: Rewriter, j: Json, p: Path, pattern: string, vals: map<string, string>, link: Url)
    requires Configured(patterns, mappings) && Implements(words, syntax, mappings, req, rw)
    requires pattern in patterns && WellFormed(backendUrl, pattern, patterns[pattern]) && Requested(pattern, vals)
    requires forall n | n in vals :: NoPlaceholder(vals[n], vals.Keys) && !HasReference(words, vals[n])
    requires Has(Output(rw, j), p) && OutsideHref(p) && AtHref(p)
    requires LinksTo(syntax, rw, j, p, link) && link.path == BackendPath(pattern, patterns[pattern], vals)
    requires Unambiguous(patterns, pattern, link.path)
    ensures forall n | n in Params(Lex(pattern)) :: n in vals
    ensures At(Output(rw, j), p) ==
      Str(syntax.show(link.(scheme := req.scheme, host := req.host, path := Fill(Lex(pattern), vals))))
  {
    var s := OriginalAt(rw, j, p).s;
    RemovalExact(rw, j, false);
    OutputTracesBack(rw, j, false, p);
    assert Answers(words, syntax, mappings, req, s, rw(s));
    var r :| MayAnswer(words, mappings, syntax.parse(s), req, r) && rw(s) == Printed(syntax, r);
    BackendPathMatches(backendUrl, pattern, patterns[pattern], vals);
    OnlyOwnMapping(patterns, mappings, pattern, link.path);
    LinkRestored(words, mappings, link, req, r, backendUrl, pattern, patterns[pattern], vals);
  }

  /** What stood in the backend's document where the place `p` of the output comes from. */
  function OriginalAt(rw: Rewriter, j: Json, p: Path): Json
    requires Has(Output(rw, j), p) && OutsideHref(p)
  {
    RemovalExact(rw, j, false);
    OutputTracesBack(rw, j, false, p);
    At(j, Origin(rw, j, false, p))
  }

  /** The place `p` of the output comes from a string that reads as `link`. */
  ghost predicate LinksTo(syntax: Syntax, rw: Rewriter, j: Json, p: Path, link: Url)
    requires Has(Output(rw, j), p) && OutsideHref(p)
  {
    var before := OriginalAt(rw, j, p);
    before.Str? && syntax.parse(before.s) == Some(link)
  }

  lemma {:induction false} BackendPathMatches(
    backendUrl: string, pattern: string, target: string, vals: map<string, string>)
    requires WellFormed(backendUrl, pattern, target) && Requested(pattern, vals)
    ensures Match(Lex(target), BackendPath(pattern, target, vals)).Some?
  {
    OutgoingSegments(pattern, vals);
    assert forall n | n in Params(Lex(target)) :: n in Elements(Params(Lex(target)));
    MatchFilled(Lex(target), Outgoing(pattern, vals));
  }

  /**
    The same for an application that is routed by a path prefix: an `href` that linked to the
    backend path of a request links to the path that was requested if and only if the rest of
    the path has no newline and no reference.
   */
  lemma {:induction false} PathHrefRestored(
    words: Words, syntax: Syntax, routingPath: string, mappings: seq<Mapping>, req: Url, rw: Rewriter,
    j: Json, p: Path, rest: string, link: Url)
    requires Lists(PathMapping(routingPath), mappings) && Implements(words, syntax, mappings, req, rw)
    requires TrimSlashes(routingPath) == routingPath && !Occurs(":" + PATH, routingPath)
    requires Has(Output(rw, j), p) && OutsideHref(p) && AtHref(p)
    requires LinksTo(syntax, rw, j, p, link) && link.path == "/" + rest
    ensures var path := RewritePath(words, routingPath, link.path);
      && path.Some?
      && At(Output(rw, j), p) == Str(syntax.show(link.(scheme := req.scheme, host := req.host, path := path.value)))
      && (path.value == routingPath + ("/" + rest) <==> '\n' !in rest && !HasReference(words, rest))
  {
    var s := OriginalAt(rw, j, p).s;
    RemovalExact(rw, j, false);
    OutputTracesBack(rw, j, false, p);
    assert Answers(words, syntax, mappings, req, s, rw(s));
    var r :| MayAnswer(words, mappings, syntax.parse(s), req, r) && rw(s) == Printed(syntax, r);
    PathRewritten(words, mappings, link, req, r, routingPath);
    PathRoundTripExact(words, "", routingPath, rest);
    PrefixPutBack(words, routingPath, rest);
  }

  /** Every string `href` of the document that the client gets is the answer of `RewriteUrl` for some link. */
  lemma {:induction false} HrefSound(
    words: Words, syntax: Syntax, mappings: seq<Mapping>, req: Url, rw: Rewriter, j: Json, p: Path)
    requires Implements(words, syntax, mappings, req, rw)
    requires Has(Output(rw, j), p) && OutsideHref(p) && AtHref(p) && OriginalAt(rw, j, p).Str?
    ensures exists link, url, used, order ::
      && syntax.parse(OriginalAt(rw, j, p).s) == Some(link) && Rewrites(words, mappings, link, req, url, used, order)
      && At(Output(rw, j), p) == Str(syntax.show(url))
  {
    var s := OriginalAt(rw, j, p).s;
    RemovalExact(rw, j, false);
    OutputTracesBack(rw, j, false, p);
    assert Answers(words, syntax, mappings, req, s, rw(s));
  }
}
