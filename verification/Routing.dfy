/**
  Routing and its inverse: a request path becomes a backend path (dispatcher/pathbased.go,
  dispatcher/no_integration_dispatcher.go), and the links in the answer are turned back into
  public paths (proxy/hostrewriter.go). Paths are decoded (section 3.3 of RFC 3986).
 */
module Routing {
  import opened Results
  import opened Substitution
  import opened Expansion
  import opened Filling

  // ------------------------------------------------------------------ reading a pattern

  function AlnumRun(s: string): (n: nat)
    ensures n <= |s|
    ensures forall i | 0 <= i < n :: Alnum(s[i])
  {
    if s == "" || !Alnum(s[0]) then 0 else 1 + AlnumRun(s[1..])
  }

  /** The tokens of a pattern: the expression :([a-zA-Z0-9]+) finds the parameters. */
  function Lex(text: string): (ts: Template)
    ensures forall i | 0 <= i < |ts| && ts[i].Param? :: Name(ts[i].name)
    ensures Render(ts) == text
  {
    if text == "" then []
    else
      var n := AlnumRun(text[1..]);
      if text[0] == ':' && n > 0 then
        var name, rest := text[1..][..n], text[1..][n..];
        assert text == ":" + name + rest && Name(name);
        RenderCons(Param(name), Lex(rest));
        [Param(name)] + Lex(rest)
      else
        RenderCons(Lit(text[0]), Lex(text[1..]));
        [Lit(text[0])] + Lex(text[1..])
  }

  lemma {:induction false} RenderCons(t: Token, ts: Template)
    ensures Render([t] + ts) == (match t case Lit(c) => [c] case Param(n) => ":" + n) + Render(ts)
  {
    assert ([t] + ts)[1..] == ts;
  }

  /**
    A reading of a pattern in which every parameter is found and read to its end: no character
    of a name follows a parameter, nor a colon that is left as it is.
   */
  predicate Read(ts: Template) {
    forall i | 0 <= i < |ts| :: ReadToken(ts[i], NameNext(ts, i + 1))
  }

  predicate ReadToken(t: Token, nameNext: bool) {
    match t
    case Lit(c) => c == ':' ==> !nameNext
    case Param(n) => Name(n) && !nameNext
  }

  predicate NameNext(ts: Template, i: nat) {
    i < |ts| && ts[i].Lit? && Alnum(ts[i].c)
  }

  /** `Lex` reads a pattern so, and there is no other way to. */
  lemma {:induction false} LexRead(text: string)
    ensures Read(Lex(text))
    decreases |text|
  {
    if text != "" {
      var n := AlnumRun(text[1..]);
      if text[0] == ':' && n > 0 {
        var rest := text[n + 1..];
        RunEnds(text[1..]);
        LexRead(rest);
        ReadCons(Param(text[1..n + 1]), Lex(rest));
        LexHead(rest);
      } else {
        LexRead(text[1..]);
        ReadCons(Lit(text[0]), Lex(text[1..]));
        LexHead(text[1..]);
      }
    }
  }

  lemma {:induction false} RunEnds(s: string)
    ensures AlnumRun(s) < |s| ==> !Alnum(s[AlnumRun(s)])
    decreases s
  {
    if s != "" && Alnum(s[0]) {
      RunEnds(s[1..]);
    }
  }

  lemma {:induction false} LexHead(text: string)
    ensures NameNext(Lex(text), 0) <==> text != "" && Alnum(text[0])
  {
  }

  lemma {:induction false} ReadCons(t: Token, ts: Template)
    requires Read(ts) && ReadToken(t, NameNext(ts, 0))
    ensures Read([t] + ts)
  {
    var all := [t] + ts;
    forall i | 0 <= i < |all|
      ensures ReadToken(all[i], NameNext(all, i + 1))
    {
      if i > 0 {
        assert all[i] == ts[i - 1] && NameNext(all, i + 1) == NameNext(ts, i);
      } else {
        assert NameNext(all, 1) == NameNext(ts, 0);
      }
    }
  }

  lemma {:induction false} ReadTail(ts: Template)
    requires ts != [] && Read(ts)
    ensures Read(ts[1..]) && NameNext(ts[1..], 0) == NameNext(ts, 1)
  {
    var rest := ts[1..];
    forall i | 0 <= i < |rest|
      ensures ReadToken(rest[i], NameNext(rest, i + 1))
    {
      assert rest[i] == ts[i + 1] && NameNext(rest, i + 1) == NameNext(ts, i + 2);
    }
  }

  lemma {:induction false} LexLit(c: char, rest: string)
    requires c == ':' ==> rest == "" || !Alnum(rest[0])
    ensures Lex([c] + rest) == [Lit(c)] + Lex(rest)
  {
    var text := [c] + rest;
    assert text[1..] == rest;
  }

  lemma {:induction false} LexParam(m: string, rest: string)
    requires Name(m) && (rest == "" || !Alnum(rest[0]))
    ensures Lex(":" + m + rest) == [Param(m)] + Lex(rest)
  {
    var text := ":" + m + rest;
    assert text[1..] == m + rest;
    RunExact(m, rest);
    assert text[1..|m| + 1] == m && text[|m| + 1..] == rest;
  }

  lemma {:induction false} LexUnique(ts: Template)
    requires Read(ts)
    ensures Lex(Render(ts)) == ts
    decreases |ts|
  {
    if ts != [] {
      ReadTail(ts);
      LexUnique(ts[1..]);
      var rest := Render(ts[1..]);
      assert ReadToken(ts[0], NameNext(ts, 1));
      LexHead(rest);
      match ts[0] {
        case Lit(c) => LexLit(c, rest);
        case Param(m) => LexParam(m, rest);
      }
      assert ts == [ts[0]] + ts[1..];
    }
  }

  lemma {:induction false} RunExact(m: string, rest: string)
    requires (forall i | 0 <= i < |m| :: Alnum(m[i])) && (rest == "" || !Alnum(rest[0]))
    ensures AlnumRun(m + rest) == |m|
    decreases m
  {
    if m == "" {
      assert m + rest == rest;
    } else {
      assert (m + rest)[1..] == m[1..] + rest;
      RunExact(m[1..], rest);
    }
  }

  // ------------------------------------------------------------------ matching a path

  /**
    Matches `path` against ^...$ where every parameter is the lazy group ([^/]+?): the groups
    of the first match in the order in which a backtracking matcher tries them.
   */
  function Match(ts: Template, path: string): Option<seq<string>>
    decreases |ts|, |path| + 2
  {
    if ts == [] then if path == "" then Some([]) else None
    else match ts[0]
      case Lit(c) => if path != "" && path[0] == c then Match(ts[1..], path[1..]) else None
      case Param(_) => MatchGroup(ts, path, 1)
  }

  /** The first parameter takes at least `k` characters. */
  function MatchGroup(ts: Template, path: string, k: nat): Option<seq<string>>
    requires ts != [] && k > 0
    decreases |ts|, |path| + 1 - k
  {
    if k > |path| || path[k - 1] == '/' then None
    else
      var tail := Match(ts[1..], path[k..]);
      if tail.Some? then Some([path[..k]] + tail.value) else MatchGroup(ts, path, k + 1)
  }

  /** `path` is `ts` with the groups in place of its parameters. */
  ghost predicate Splits(ts: Template, path: string, groups: seq<string>)
    decreases |ts|
  {
    if ts == [] then path == "" && groups == []
    else match ts[0]
      case Lit(c) => path != "" && path[0] == c && Splits(ts[1..], path[1..], groups)
      case Param(_) =>
        && groups != [] && Segment(groups[0]) && groups[0] <= path
        && Splits(ts[1..], path[|groups[0]|..], groups[1..])
  }

  /** A match is a way to split the path, and there is one whenever the path can be split at all. */
  lemma {:induction false} MatchExact(ts: Template, path: string)
    ensures Match(ts, path).Some? ==> Splits(ts, path, Match(ts, path).value)
    ensures forall groups | Splits(ts, path, groups) :: Match(ts, path).Some?
    decreases |ts|, |path| + 2
  {
    if ts != [] {
      match ts[0]
      case Lit(c) => if path != "" { MatchExact(ts[1..], path[1..]); }
      case Param(_) =>
        MatchGroupExact(ts, path, 1);
        forall groups | Splits(ts, path, groups)
          ensures Match(ts, path).Some?
        {
          assert 1 <= |groups[0]|;
        }
    }
  }

  lemma {:induction false} MatchGroupExact(ts: Template, path: string, k: nat)
    requires ts != [] && ts[0].Param? && 0 < k && '/' !in path[..if k - 1 <= |path| then k - 1 else |path|]
    ensures MatchGroup(ts, path, k).Some? ==> Splits(ts, path, MatchGroup(ts, path, k).value)
    ensures forall groups | Splits(ts, path, groups) && k <= |groups[0]| :: MatchGroup(ts, path, k).Some?
    decreases |ts|, |path| + 1 - k
  {
    if k <= |path| && path[k - 1] != '/' {
      MatchExact(ts[1..], path[k..]);
      assert path[..k] == path[..k - 1] + [path[k - 1]];
      if Match(ts[1..], path[k..]).Some? {
        var g := MatchGroup(ts, path, k).value;
        assert g[0] == path[..k] && g[1..] == Match(ts[1..], path[k..]).value;
      } else {
        MatchGroupExact(ts, path, k + 1);
        forall groups | Splits(ts, path, groups) && k <= |groups[0]|
          ensures MatchGroup(ts, path, k).Some?
        {
          if |groups[0]| == k {
            assert Splits(ts[1..], path[k..], groups[1..]);
          }
        }
      }
    }
  }

  function Values(names: seq<string>, vals: map<string, string>): (r: seq<string>)
    requires forall n | n in names :: n in vals
    ensures |r| == |names| && forall i | 0 <= i < |r| :: r[i] == vals[names[i]]
  {
    if names == [] then [] else [vals[names[0]]] + Values(names[1..], vals)
  }

  /** The values in the order in which the template has them. */
  function Groups(ts: Template, vals: map<string, string>): seq<string>
    requires forall n | n in Params(ts) :: n in vals
  {
    Values(Params(ts), vals)
  }

  /** A filled pattern has one match only, and it gives the values back. */
  lemma {:induction false} MatchFilled(ts: Template, vals: map<string, string>)
    requires Delimited(ts) && forall n | n in Params(ts) :: n in vals && Segment(vals[n])
    ensures Match(ts, Fill(ts, vals)) == Some(Groups(ts, vals))
    decreases |ts|
  {
    if ts != [] {
      GroupsCons(ts, vals);
      DelimitedTail(ts);
      MatchFilled(ts[1..], vals);
      var path, rest := Fill(ts, vals), Fill(ts[1..], vals);
      match ts[0]
      case Lit(c) => assert path[1..] == rest;
      case Param(n) => GroupFound(ts, vals[n], rest, 1);
    }
  }

  lemma {:induction false} GroupsCons(ts: Template, vals: map<string, string>)
    requires ts != [] && forall n | n in Params(ts) :: n in vals
    ensures forall n | n in Params(ts[1..]) :: n in Params(ts)
    ensures ts[0].Lit? ==> Groups(ts, vals) == Groups(ts[1..], vals)
    ensures ts[0].Param? ==> ts[0].name in Params(ts) && Groups(ts, vals) == [vals[ts[0].name]] + Groups(ts[1..], vals)
  {
    var rest := Params(ts[1..]);
    assert ts[0].Lit? ==> Params(ts) == [] + rest == rest;
    assert ts[0].Param? ==> Params(ts) == [ts[0].name] + rest && ([ts[0].name] + rest)[1..] == rest;
  }

  lemma {:induction false} GroupFound(ts: Template, v: string, rest: string, k: nat)
    requires ts != [] && ts[0].Param? && Segment(v) && 0 < k <= |v|
    requires Match(ts[1..], rest).Some?
    requires (|ts| == 1 && rest == "") || (|ts| > 1 && ts[1] == Lit('/'))
    ensures MatchGroup(ts, v + rest, k) == Some([v] + Match(ts[1..], rest).value)
    decreases |v| - k
  {
    var path := v + rest;
    assert path[k - 1] == v[k - 1];
    if k == |v| {
      assert path[..k] == v && path[k..] == rest;
    } else {
      assert path[k..] == v[k..] + rest && path[k..][0] == v[k];
      GroupFound(ts, v, rest, k + 1);
    }
  }

  // ------------------------------------------------------------------ what RegisterApplication builds

  /** The expressions that the gateway builds: ^...$ from a target, and /(?P<path>.*) for a path prefix. */
  datatype Expression = Anchored(ts: Template) | AfterSlash

  /** The names of its groups, and the groups of its first match. */
  function GroupNames(e: Expression): seq<string> {
    match e
    case Anchored(ts) => Params(ts)
    case AfterSlash => [PATH]
  }

  function Find(e: Expression, path: string): Option<seq<string>> {
    match e
    case Anchored(ts) => Match(ts, path)
    case AfterSlash => var rest := MatchPath(path); if rest.Some? then Some([rest.value]) else None
  }

  lemma {:induction false} FindCount(e: Expression, path: string)
    requires Find(e, path).Some?
    ensures |Find(e, path).value| == |GroupNames(e)|
  {
    if e.Anchored? {
      MatchExact(e.ts, path);
      SplitsCount(e.ts, path, Match(e.ts, path).value);
    }
  }

  /** One entry of `Mappings`: links that match become paths of the public pattern. */
  datatype Mapping = Mapping(expr: Expression, pattern: string)

  /** The handler of one pattern: `targetUrl`, and the parameters of the public pattern. */
  datatype PatternClosure = PatternClosure(targetUrl: string, parameters: seq<string>)

  function ClosureOf(backendUrl: string, pattern: string, target: string): PatternClosure {
    PatternClosure(backendUrl + target, Params(Lex(pattern)))
  }

  /** The mapping leads from every target, and from nothing else, to a pattern that has it. */
  ghost predicate Inverts(patterns: map<string, string>, mapping: map<Expression, string>) {
    && (forall e :: e in mapping <==> exists p :: p in patterns && Anchored(Lex(patterns[p])) == e)
    && (forall e | e in mapping :: mapping[e] in patterns && Anchored(Lex(patterns[mapping[e]])) == e)
  }

  /** The list has the entries of the mapping and no others. */
  ghost predicate Lists(urlPatterns: map<Expression, string>, mappings: seq<Mapping>) {
    && (forall m | m in mappings :: m.expr in urlPatterns && m.pattern == urlPatterns[m.expr])
    && (forall e | e in urlPatterns :: Mapping(e, urlPatterns[e]) in mappings)
  }

  /**
    The pattern branch of `RegisterApplication`, in any order of the patterns. Patterns with
    the same target share one entry of the mapping, and which of them gets it is open.
   */
  method RegisterPatterns(backendUrl: string, patterns: map<string, string>)
    returns (routes: map<string, PatternClosure>, mapping: map<Expression, string>)
    ensures routes.Keys == patterns.Keys
    ensures forall p | p in patterns :: routes[p] == ClosureOf(backendUrl, p, patterns[p])
    ensures Inverts(patterns, mapping)
  {
    routes, mapping := map[], map[];
    var todo := patterns.Keys;
    while todo != {}
      invariant todo <= patterns.Keys && routes.Keys == patterns.Keys - todo
      invariant forall p | p in routes :: routes[p] == ClosureOf(backendUrl, p, patterns[p])
      invariant forall p | p in routes :: Anchored(Lex(patterns[p])) in mapping
      invariant forall e | e in mapping :: mapping[e] in routes && Anchored(Lex(patterns[mapping[e]])) == e
    {
      var pattern :| pattern in todo;
      todo := todo - {pattern};
      mapping := mapping[Anchored(Lex(patterns[pattern])) := pattern];
      routes := routes[pattern := ClosureOf(backendUrl, pattern, patterns[pattern])];
    }
  }

  /** The path branch: one entry for the trimmed path. */
  function PathMapping(routingPath: string): map<Expression, string> {
    map[AfterSlash := TrimSlashes(routingPath) + ("/:" + PATH)]
  }

  /** `NewHostRewriter`: the entries of the mapping as a list, in any order. */
  method NewMappings(urlPatterns: map<Expression, string>) returns (mappings: seq<Mapping>)
    ensures Lists(urlPatterns, mappings)
  {
    mappings := [];
    var todo := urlPatterns.Keys;
    while todo != {}
      invariant todo <= urlPatterns.Keys
      invariant forall m | m in mappings :: m.expr in urlPatterns && m.pattern == urlPatterns[m.expr]
      invariant forall e | e in urlPatterns && e !in todo :: Mapping(e, urlPatterns[e]) in mappings
    {
      var e :| e in todo;
      todo := todo - {e};
      mappings := mappings + [Mapping(e, urlPatterns[e])];
    }
  }

  // ------------------------------------------------------------------ the two loops

  /** The values as an environment of literals; a parameter that the router does not know is empty. */
  function Literals(vals: map<string, string>, names: seq<string>): Env {
    map n | n in names :: Lits(if n in vals then vals[n] else "")
  }

  /** `PatternClosure.Handle`: the URL that the request is proxied to. */
  method HandlePattern(c: PatternClosure, vals: map<string, string>) returns (targetUrl: string)
    requires forall n | n in c.parameters :: n != ""
    ensures targetUrl == ReplaceEach(c.targetUrl, c.parameters, Literals(vals, c.parameters))
  {
    targetUrl := c.targetUrl;
    var env := Literals(vals, c.parameters);
    for i := 0 to |c.parameters|
      invariant ReplaceEach(targetUrl, c.parameters[i..], env) == ReplaceEach(c.targetUrl, c.parameters, env)
    {
      var n := c.parameters[i];
      RenderLits(if n in vals then vals[n] else "");
      assert c.parameters[i..][1..] == c.parameters[i + 1..];
      targetUrl := ReplaceAll(targetUrl, ":" + n, if n in vals then vals[n] else "");
    }
  }

  /** What is inserted for the placeholder of `n` on the way back, when its group is `v`. */
  function Inserted(words: Words, v: string, n: string): string {
    Render(Expand(words, v, n))
  }

  /** The groups put back into `text`, in the order given. */
  function ReplaceGroups(words: Words, text: string, order: seq<nat>, names: seq<string>, groups: seq<string>): string
    requires |groups| == |names| && forall i | 0 <= i < |order| :: order[i] < |names|
    decreases order
  {
    if order == [] then text
    else
      var k := order[0];
      var next := ReplaceAll(text, ":" + names[k], Inserted(words, groups[k], names[k]));
      ReplaceGroups(words, next, order[1..], names, groups)
  }

  function Indexes(n: nat): (ks: set<nat>)
    ensures forall k: nat :: k in ks <==> k < n
  {
    if n == 0 then {} else Indexes(n - 1) + {n - 1}
  }

  /** `order` lists the indexes in `ks`, each once. */
  ghost predicate Visits(order: seq<nat>, ks: set<nat>) {
    && (forall i | 0 <= i < |order| :: order[i] in ks)
    && (forall k | k in ks :: k in order)
    && (forall i, j | 0 <= i < j < |order| :: order[i] != order[j])
  }

  /** Every index below `n` once. */
  ghost predicate Permutation(order: seq<nat>, n: nat) {
    Visits(order, Indexes(n))
  }

  /** `path` is the pattern with each group put back once, in the given order. */
  ghost predicate PutsBack(words: Words, m: Mapping, groups: seq<string>, order: seq<nat>, path: string) {
    && |groups| == |GroupNames(m.expr)| && Permutation(order, |groups|)
    && path == ReplaceGroups(words, m.pattern, order, GroupNames(m.expr), groups)
  }

  /** `mapping.repl`: the loop visits the named groups in any order. */
  method Repl(words: Words, m: Mapping, groups: seq<string>) returns (path: string)
    requires |groups| == |GroupNames(m.expr)|
    ensures exists order :: PutsBack(words, m, groups, order, path)
  {
    var names := GroupNames(m.expr);
    path := m.pattern;
    ghost var order: seq<nat> := [];
    var todo := Indexes(|names|);
    while todo != {}
      invariant todo <= Indexes(|names|) && Visits(order, Indexes(|names|) - todo)
      invariant path == ReplaceGroups(words, m.pattern, order, names, groups)
    {
      var k :| k in todo;
      GroupsSnoc(words, m.pattern, order, k, names, groups);
      path := ReplaceAll(path, ":" + names[k], Inserted(words, groups[k], names[k]));
      VisitsSnoc(order, Indexes(|names|) - todo, k);
      assert Indexes(|names|) - (todo - {k}) == Indexes(|names|) - todo + {k};
      order, todo := order + [k], todo - {k};
    }
    assert Indexes(|names|) - {} == Indexes(|names|);
    assert PutsBack(words, m, groups, order, path);
  }

  lemma {:induction false} VisitsSnoc(order: seq<nat>, ks: set<nat>, k: nat)
    requires Visits(order, ks) && k !in ks
    ensures Visits(order + [k], ks + {k})
  {
    forall l | l in ks + {k}
      ensures l in order + [k]
    {
      assert l in order || l == k;
    }
  }

  lemma {:induction false} GroupsSnoc(
    words: Words, text: string, order: seq<nat>, k: nat, names: seq<string>, groups: seq<string>)
    requires |groups| == |names| && k < |names| && forall i | 0 <= i < |order| :: order[i] < |names|
    ensures ReplaceGroups(words, text, order + [k], names, groups) ==
            ReplaceAll(ReplaceGroups(words, text, order, names, groups),
                       ":" + names[k], Inserted(words, groups[k], names[k]))
    decreases order
  {
    if order == [] {
      assert order + [k] == [k] && [k][1..] == [];
    } else {
      assert (order + [k])[1..] == order[1..] + [k];
      var first := order[0];
      var next := ReplaceAll(text, ":" + names[first], Inserted(words, groups[first], names[first]));
      GroupsSnoc(words, next, order[1..], k, names, groups);
    }
  }

  /** A URL, as far as the rewriter changes it. */
  datatype Url = Url(scheme: string, host: string, path: string, rest: string)

  /** What `RewriteUrl` may answer. */
  ghost predicate MayAnswer(words: Words, mappings: seq<Mapping>, parsed: Option<Url>, req: Url, r: UrlResult<Url>) {
    match r
    case Malformed => parsed.None?
    case Unmappable => parsed.Some? && forall m | m in mappings :: Find(m.expr, parsed.value.path).None?
    case Mapped(url) =>
      parsed.Some? && exists used, order :: Rewrites(words, mappings, parsed.value, req, url, used, order)
  }

  /** Mapping `used` is the first that matches, and its groups are put back in `order`. */
  ghost predicate Rewrites(
    words: Words, mappings: seq<Mapping>, link: Url, req: Url, url: Url, used: nat, order: seq<nat>)
  {
    && used < |mappings|
    && (forall i | 0 <= i < used :: Find(mappings[i].expr, link.path).None?)
    && var groups := Find(mappings[used].expr, link.path);
    && groups.Some? && PutsBack(words, mappings[used], groups.value, order, url.path)
    && url == link.(scheme := req.scheme, host := req.host, path := url.path)
  }

  /** `RewriteUrl`: the first mapping that matches decides. */
  method RewriteUrl(words: Words, mappings: seq<Mapping>, parsed: Option<Url>, req: Url) returns (r: UrlResult<Url>)
    ensures MayAnswer(words, mappings, parsed, req, r)
  {
    if parsed.None? {
      return Malformed;
    }
    var link := parsed.value;
    for i := 0 to |mappings|
      invariant forall j | 0 <= j < i :: Find(mappings[j].expr, link.path).None?
    {
      var matches := Find(mappings[i].expr, link.path);
      if matches.Some? {
        FindCount(mappings[i].expr, link.path);
        var path := Repl(words, mappings[i], matches.value);
        ghost var order :| PutsBack(words, mappings[i], matches.value, order, path);
        r := Mapped(link.(scheme := req.scheme, host := req.host, path := path));
        assert Rewrites(words, mappings, link, req, r.url, i, order);
        return;
      }
    }
    r := Unmappable;
  }

  /** If mapping `k` is the first in the list whose expression is found in the link, it alone decides. */
  lemma {:induction false} FirstMatchDecides(
    words: Words, mappings: seq<Mapping>, link: Url, req: Url, r: UrlResult<Url>, k: nat)
    requires MayAnswer(words, mappings, Some(link), req, r) && k < |mappings|
    requires forall i | 0 <= i < k :: Find(mappings[i].expr, link.path) == None
    requires Find(mappings[k].expr, link.path) != None
    ensures r.Mapped? && r.url == Url(req.scheme, req.host, r.url.path, link.rest)
    ensures exists order ::
      PutsBack(words, mappings[k], Find(mappings[k].expr, link.path).value, order, r.url.path)
  {
    assert mappings[k] in mappings;
    var used: nat, order: seq<nat> :| Rewrites(words, mappings, link, req, r.url, used, order);
    assert used == k;
  }

  lemma {:induction false} SplitsCount(ts: Template, path: string, groups: seq<string>)
    requires Splits(ts, path, groups)
    ensures |groups| == |Params(ts)|
    decreases |ts|
  {
    if ts != [] {
      match ts[0]
      case Lit(_) => SplitsCount(ts[1..], path[1..], groups);
      case Param(_) => SplitsCount(ts[1..], path[|groups[0]|..], groups[1..]);
    }
  }

  // ------------------------------------------------------------------ routing by path prefix

  /** The name of the one group of the mapping of a path prefix. */
  const PATH: string := "path"

  /** strings.Replace(s, sub, with, 1). */
  function ReplaceFirst(s: string, sub: string, with: string): string {
    if sub <= s then with + s[|sub|..]
    else if s == "" then s
    else [s[0]] + ReplaceFirst(s[1..], sub, with)
  }

  /** strings.TrimRight(s, "/"). */
  function TrimSlashes(s: string): string {
    if s != "" && s[|s| - 1] == '/' then TrimSlashes(s[..|s| - 1]) else s
  }

  /** `PathClosure.Handle`: the URL that the request is proxied to. */
  function HandlePath(backendUrl: string, routingPath: string, requestPath: string): string {
    backendUrl + ReplaceFirst(requestPath, routingPath, "")
  }

  /** The text before the first newline, which '.' does not match. */
  function Line(s: string): string {
    if s == "" || s[0] == '\n' then "" else [s[0]] + Line(s[1..])
  }

  /** The group `path` of the leftmost match of /(?P<path>.*), which is not anchored. */
  function MatchPath(path: string): Option<string> {
    if path == "" then None
    else if path[0] == '/' then Some(Line(path[1..]))
    else MatchPath(path[1..])
  }

  /** The path that a link to `path` is rewritten to. */
  function RewritePath(words: Words, routingPath: string, path: string): Option<string> {
    var m := MatchPath(path);
    if m.None? then None
    else Some(ReplaceAll(TrimSlashes(routingPath) + ("/:" + PATH), ":" + PATH, Inserted(words, m.value, PATH)))
  }

  /** For a path prefix `RewriteUrl` has one answer only. */
  lemma {:induction false} PathRewritten(
    words: Words, mappings: seq<Mapping>, link: Url, req: Url, r: UrlResult<Url>, routingPath: string)
    requires Lists(PathMapping(routingPath), mappings) && MayAnswer(words, mappings, Some(link), req, r)
    ensures r == match RewritePath(words, routingPath, link.path)
      case None => Unmappable
      case Some(path) => Mapped(link.(scheme := req.scheme, host := req.host, path := path))
  {
    var e := AfterSlash;
    assert Mapping(e, PathMapping(routingPath)[e]) in mappings;
    if r.Mapped? {
      var used: nat, order: seq<nat> :| Rewrites(words, mappings, link, req, r.url, used, order);
      assert mappings[used] in mappings;
      OnlyIndex(order);
      assert [0][1..] == [];
    }
  }

  /** The leftmost match is at the first slash, wherever that is. */
  lemma {:induction false} MatchPathExact(pre: string, rest: string)
    requires '/' !in pre
    ensures MatchPath(pre) == None && MatchPath(pre + ("/" + rest)) == Some(Line(rest))
    decreases pre
  {
    var path := pre + ("/" + rest);
    if pre == "" {
      assert path == "/" + rest && path[1..] == rest;
    } else {
      assert path[0] == pre[0] && path[1..] == pre[1..] + ("/" + rest);
      MatchPathExact(pre[1..], rest);
    }
  }

  lemma {:induction false} FirstSlash(path: string) returns (pre: string, rest: string)
    requires '/' in path
    ensures path == pre + ("/" + rest) && '/' !in pre
    decreases path
  {
    if path[0] == '/' {
      pre, rest := "", path[1..];
    } else {
      assert path == [path[0]] + path[1..];
      pre, rest := FirstSlash(path[1..]);
      pre := [path[0]] + pre;
      assert path == pre + ("/" + rest);
    }
  }

  /** The configured path without the slashes at its end. */
  lemma {:induction false} TrimSlashesExact(s: string)
    ensures TrimSlashes(s) <= s && forall i | |TrimSlashes(s)| <= i < |s| :: s[i] == '/'
    ensures TrimSlashes(s) == "" || TrimSlashes(s)[|TrimSlashes(s)| - 1] != '/'
  {
    if s != "" && s[|s| - 1] == '/' {
      TrimSlashesExact(s[..|s| - 1]);
    }
  }

  /**
    What `RewriteUrl` answers for a path prefix, said of the link alone: a link without a slash
    is unmappable, and any other, relative ones too, becomes the prefix and what follows its
    first slash.
   */
  lemma {:induction false} PathAnswers(
    words: Words, mappings: seq<Mapping>, link: Url, req: Url, r: UrlResult<Url>, routingPath: string)
    requires Lists(PathMapping(routingPath), mappings) && MayAnswer(words, mappings, Some(link), req, r)
    requires !Occurs(":" + PATH, TrimSlashes(routingPath))
    ensures r.Unmappable? <==> '/' !in link.path
    ensures forall pre, rest | link.path == pre + ("/" + rest) && '/' !in pre ::
      AnswersRest(words, link, req, r, routingPath, rest)
  {
    PathRewritten(words, mappings, link, req, r, routingPath);
    if '/' in link.path {
      var pre, rest := FirstSlash(link.path);
      MatchPathExact(pre, rest);
    } else {
      MatchPathExact(link.path, "");
    }
    forall pre, rest | link.path == pre + ("/" + rest) && '/' !in pre
      ensures AnswersRest(words, link, req, r, routingPath, rest)
    {
      MatchPathExact(pre, rest);
      if '\n' !in rest && !HasReference(words, rest) {
        RestRewritten(words, routingPath, link.path, rest);
      }
    }
  }

  lemma {:induction false} RestRewritten(words: Words, routingPath: string, path: string, rest: string)
    requires MatchPath(path) == Some(Line(rest)) && '\n' !in rest && !HasReference(words, rest)
    requires !Occurs(":" + PATH, TrimSlashes(routingPath))
    ensures RewritePath(words, routingPath, path) == Some(TrimSlashes(routingPath) + ("/" + rest))
  {
    LineExact(rest);
    NoReferenceLiteral(words, rest, PATH);
    RenderLits(rest);
    PutBack(TrimSlashes(routingPath), PATH, rest);
  }

  ghost predicate AnswersRest(
    words: Words, link: Url, req: Url, r: UrlResult<Url>, routingPath: string, rest: string)
  {
    '\n' !in rest && !HasReference(words, rest) ==>
      r == Mapped(Url(req.scheme, req.host, TrimSlashes(routingPath) + ("/" + rest), link.rest))
  }

  lemma {:induction false} OnlyIndex(order: seq<nat>)
    requires Permutation(order, 1)
    ensures order == [0]
  {
    assert Indexes(1) == {0};
    assert 0 in order;
    NotAllOnce(order);
  }

  lemma {:induction false} NotAllOnce(order: seq<nat>)
    ensures Visits(order, {0}) ==> |order| <= 1
  {
    if |order| > 1 && order[0] == order[1] {
      assert !Visits(order, {0});
    }
  }

  lemma {:induction false} LineExact(s: string)
    ensures '\n' !in Line(s) && (Line(s) == s <==> '\n' !in s)
    decreases s
  {
    if s != "" {
      LineExact(s[1..]);
      assert s == [s[0]] + s[1..];
    }
  }

  lemma {:induction false} ExpandNoNewline(words: Words, v: string, n: string)
    requires '\n' !in v && Name(n)
    ensures '\n' !in Inserted(words, v, n)
    decreases |v|
  {
    if v != "" {
      var next := Taken(words, v);
      ExpandNoNewline(words, v[next..], n);
      var rest := Expand(words, v[next..], n);
      assert ([Lit(v[0])] + rest)[1..] == rest && ([Param(n)] + rest)[1..] == rest;
    }
  }

  /** The one placeholder at the end of a text is replaced. */
  lemma {:induction false} PutBack(pre: string, n: string, w: string)
    requires Name(n) && !Occurs(":" + n, pre)
    ensures ReplaceAll(pre + ("/:" + n), ":" + n, w) == pre + ("/" + w)
  {
    var p := ":" + n;
    ReplaceSplits(pre, "/:" + n, n, w);
    NothingReplaced(pre, p, w);
    assert ("/:" + n)[1..] == p && p[|p|..] == "";
    assert ReplaceAll(p, p, w) == w + "" == w;
  }

  /**
    The round trip of a path: the prefix is stripped on the way to the backend, and the path
    comes back if and only if the rest has no newline and no reference.
   */
  lemma {:induction false} PathRoundTripExact(words: Words, backendUrl: string, routingPath: string, rest: string)
    requires TrimSlashes(routingPath) == routingPath && !Occurs(":" + PATH, routingPath)
    ensures HandlePath(backendUrl, routingPath, routingPath + ("/" + rest)) == backendUrl + ("/" + rest)
    ensures RewritePath(words, routingPath, "/" + rest) == Some(routingPath + ("/" + rest)) <==>
            '\n' !in rest && !HasReference(words, rest)
  {
    PrefixStrippedExact(backendUrl, routingPath, rest);
    var back := Inserted(words, Line(rest), PATH);
    assert RewritePath(words, routingPath, "/" + rest) == Some(routingPath + ("/" + back)) by {
      PrefixPutBack(words, routingPath, rest);
    }
    assert routingPath + ("/" + back) == routingPath + ("/" + rest) <==> back == rest by {
      SameSuffix(routingPath, back, rest);
    }
    SameExactly(words, rest);
  }

  lemma {:induction false} PrefixPutBack(words: Words, routingPath: string, rest: string)
    requires TrimSlashes(routingPath) == routingPath && !Occurs(":" + PATH, routingPath)
    ensures RewritePath(words, routingPath, "/" + rest) == Some(routingPath + ("/" + Inserted(words, Line(rest), PATH)))
  {
    assert ("/" + rest)[1..] == rest && Name(PATH);
    PutBack(routingPath, PATH, Inserted(words, Line(rest), PATH));
  }

  lemma {:induction false} SameSuffix(pre: string, a: string, b: string)
    ensures pre + ("/" + a) == pre + ("/" + b) <==> a == b
  {
    assert (pre + ("/" + a))[|pre| + 1..] == a && (pre + ("/" + b))[|pre| + 1..] == b;
  }

  lemma {:induction false} SameExactly(words: Words, rest: string)
    ensures Inserted(words, Line(rest), PATH) == rest <==> '\n' !in rest && !HasReference(words, rest)
  {
    assert Name(PATH);
    LineExact(rest);
    ExpandNoNewline(words, Line(rest), PATH);
    ExpansionIsIdentity(words, rest, PATH);
  }

  /**
    If the backend URL has a path itself, `pre`, a link still has it in front: it is restored if
    and only if there is none.
   */
  lemma {:induction false} PathBackendExact(words: Words, routingPath: string, pre: string, rest: string)
    requires TrimSlashes(routingPath) == routingPath && !Occurs(":" + PATH, routingPath)
    requires Separate(pre) && '\n' !in pre + ("/" + rest) && !HasReference(words, (pre + ("/" + rest))[1..])
    ensures RewritePath(words, routingPath, pre + ("/" + rest)) == Some(routingPath + (pre + ("/" + rest)))
    ensures routingPath + (pre + ("/" + rest)) == routingPath + ("/" + rest) <==> pre == ""
  {
    var path := pre + ("/" + rest);
    assert path[0] == '/' && path == "/" + path[1..];
    PathRoundTripExact(words, "", routingPath, path[1..]);
  }

  lemma {:induction false} TrimSlashesPrefix(s: string)
    ensures TrimSlashes(s) <= s
  {
    if s != "" && s[|s| - 1] == '/' {
      TrimSlashesPrefix(s[..|s| - 1]);
    }
  }

  lemma {:induction false} RemoveFirst(s: string, sub: string)
    ensures if Occurs(sub, s) then |ReplaceFirst(s, sub, "")| == |s| - |sub| else ReplaceFirst(s, sub, "") == s
    decreases s
  {
    if sub <= s {
      assert s[0..] == s;
    } else if s != "" {
      RemoveFirst(s[1..], sub);
      assert forall i | 0 <= i <= |s[1..]| :: s[1..][i..] == s[i + 1..];
      assert Occurs(sub, s) <==> Occurs(sub, s[1..]) by {
        if i :| 0 <= i <= |s| && sub <= s[i..] {
          assert s[0..] == s;
          assert s[1..][i - 1..] == s[i..];
        }
      }
      assert s == [s[0]] + s[1..];
    }
  }

  /**
    The prefix, as it is registered, is stripped exactly if the configured path has no slash
    at its end, or consists of slashes only and does not occur in the request.
   */
  lemma {:induction false} PrefixStrippedExact(backendUrl: string, routingPath: string, rest: string)
    ensures var prefix := TrimSlashes(routingPath);
      HandlePath(backendUrl, routingPath, prefix + ("/" + rest)) == backendUrl + ("/" + rest) <==>
        routingPath == prefix || (prefix == "" && !Occurs(routingPath, "/" + rest))
  {
    var prefix := TrimSlashes(routingPath);
    var stripped := ReplaceFirst(prefix + ("/" + rest), routingPath, "");
    StrippedExact(routingPath, rest);
    assert (backendUrl + stripped)[|backendUrl|..] == stripped;
    assert (backendUrl + ("/" + rest))[|backendUrl|..] == "/" + rest;
  }

  lemma {:induction false} StrippedExact(routingPath: string, rest: string)
    ensures var prefix := TrimSlashes(routingPath);
      ReplaceFirst(prefix + ("/" + rest), routingPath, "") == "/" + rest <==>
        routingPath == prefix || (prefix == "" && !Occurs(routingPath, "/" + rest))
  {
    var prefix := TrimSlashes(routingPath);
    var path := prefix + ("/" + rest);
    TrimSlashesPrefix(routingPath);
    RemoveFirst(path, routingPath);
    if routingPath == prefix {
      assert path[|prefix|..] == "/" + rest;
    } else {
      assert |prefix| < |routingPath|;
      assert prefix == "" ==> path == "/" + rest;
    }
  }

  /** With a slash at its end the prefix takes the slash of the backend path away. */
  lemma {:induction false} TrailingSlashExample()
    ensures HandlePath("http://b", "/app/", "/app/x") == "http://bx"
  {
    assert "/app/x"[5..] == "x";
  }
}
