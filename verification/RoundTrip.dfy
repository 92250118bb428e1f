/**
  The round trip of a pattern: what a request path becomes on the way to the backend, and
  what a link to that backend path becomes on the way back, for every value.
 */
module RoundTrip {
  import opened Results
  import opened Substitution
  import opened Expansion
  import opened Filling
  import opened Routing

  /** Characters that mean something in a regular expression. */
  predicate Meta(c: char) {
    c in "\\.+*?()|[]{}^$"
  }

  /**
    What the configuration must be like: the same parameters on both sides, none of whose
    names begins another, each followed by a slash or the end; literals without ':', and in
    the target without metacharacters; a target that begins with a slash; a backend URL in
    which no placeholder occurs.
   */
  ghost predicate WellFormed(backendUrl: string, pattern: string, target: string) {
    var p, t, names := Lex(pattern), Lex(target), Elements(Params(Lex(target)));
    && Elements(Params(p)) == names && PrefixFree(names)
    && Delimited(p) && Delimited(t) && Plain(p, names) && Plain(t, names)
    && (forall i | 0 <= i < |t| && t[i].Lit? :: !Meta(t[i].c))
    && (t == [] || t[0] == Lit('/'))
    && NoPlaceholder(backendUrl, names)
  }

  /** What the router has found in the request: a path segment for each parameter. */
  ghost predicate Requested(pattern: string, vals: map<string, string>) {
    Carries(Params(Lex(pattern)), vals)
  }

  ghost predicate Carries(names: seq<string>, vals: map<string, string>) {
    vals.Keys == Elements(names) && forall n | n in vals :: Segment(vals[n])
  }

  lemma {:induction false} ParamNames(ts: Template)
    requires forall i | 0 <= i < |ts| && ts[i].Param? :: Name(ts[i].name)
    ensures forall n | n in Params(ts) :: Name(n)
    decreases ts
  {
    if ts != [] {
      ParamNames(ts[1..]);
      ParamsCons(ts);
    }
  }

  // ------------------------------------------------------------------ on the way out

  /** What the values have become when the parameters have been replaced in `order`. */
  function Sent(order: seq<string>, vals: map<string, string>): (out: map<string, string>)
    ensures out.Keys == Elements(order)
  {
    Settled(order, Literals(vals, order))
  }

  /** What they have become when the backend URL is put together. */
  function Outgoing(pattern: string, vals: map<string, string>): (out: map<string, string>)
    ensures out.Keys == Elements(Params(Lex(pattern)))
  {
    Sent(Params(Lex(pattern)), vals)
  }

  /** The path of the backend URL, behind whatever path the configured one has itself. */
  function BackendPath(pattern: string, target: string, vals: map<string, string>): string
    requires Elements(Params(Lex(target))) <= Elements(Params(Lex(pattern)))
  {
    assert forall n | n in Params(Lex(target)) :: n in Elements(Params(Lex(target)));
    Fill(Lex(target), Outgoing(pattern, vals))
  }

  /** What goes out is made of segments again. */
  lemma {:induction false} OutgoingSegments(pattern: string, vals: map<string, string>)
    requires Requested(pattern, vals)
    ensures Requested(pattern, Outgoing(pattern, vals))
  {
    var order := Params(Lex(pattern));
    var env := Literals(vals, order);
    assert forall n | n in order :: n in Elements(order);
    forall n | n in order
      ensures Render(env[n]) == vals[n]
    {
      RenderLits(vals[n]);
    }
    forall n | n in order
      ensures Segment(Settle(order, env, n))
    {
      ReplaceEachSegment(vals[n], Following(order, n), env);
    }
  }

  /** A value goes out unchanged if no placeholder that is replaced after its own occurs in it. */
  lemma {:induction false} SentKeeps(order: seq<string>, vals: map<string, string>, n: string)
    requires n in order && n in vals && Avoids(vals[n], Following(order, n))
    ensures Sent(order, vals)[n] == vals[n]
  {
    RenderLits(vals[n]);
    Untouched(vals[n], Following(order, n), Literals(vals, order));
  }

  /**
    Every request: the backend URL is the target filled, all at once, with what the values
    have become; and that is the plain filling if and only if none of them has changed.
   */
  lemma {:induction false} ForwardFills(backendUrl: string, pattern: string, target: string, vals: map<string, string>)
    requires WellFormed(backendUrl, pattern, target) && Requested(pattern, vals)
    ensures var c := ClosureOf(backendUrl, pattern, target);
      && (forall n | n in Params(Lex(target)) :: n in vals)
      && ReplaceEach(c.targetUrl, c.parameters, Literals(vals, c.parameters)) ==
           backendUrl + BackendPath(pattern, target, vals)
      && (BackendPath(pattern, target, vals) == Fill(Lex(target), vals) <==> Outgoing(pattern, vals) == vals)
  {
    var t, order := Lex(target), Params(Lex(pattern));
    assert forall n | n in Params(t) :: n in Elements(Params(t));
    assert forall n | n in order :: n in Elements(order);
    ParamNames(Lex(pattern));
    LoopFills(backendUrl, t, order, Literals(vals, order), vals.Keys);
    OutgoingSegments(pattern, vals);
    FillExact(t, Outgoing(pattern, vals), vals);
  }

  /** Two ways to fill a pattern agree if and only if the values do. */
  lemma {:induction false} FillExact(ts: Template, a: map<string, string>, b: map<string, string>)
    requires Delimited(ts) && a.Keys == b.Keys == Elements(Params(ts))
    requires forall n | n in a :: '/' !in a[n] && '/' !in b[n]
    ensures forall n | n in Params(ts) :: n in a
    ensures Fill(ts, a) == Fill(ts, b) <==> a == b
  {
    assert forall n | n in Params(ts) :: n in Elements(Params(ts));
    if Fill(ts, a) == Fill(ts, b) {
      FillInjective(ts, a, b);
    }
  }

  // ------------------------------------------------------------------ on the way back

  /** What the groups are replaced with. */
  function Expansions(words: Words, vals: map<string, string>): Env {
    map n | n in vals :: Expand(words, vals[n], n)
  }

  function NamesIn(order: seq<nat>, names: seq<string>): (r: seq<string>)
    requires forall i | 0 <= i < |order| :: order[i] < |names|
    ensures |r| == |order| && forall i | 0 <= i < |r| :: r[i] == names[order[i]]
  {
    seq(|order|, i requires 0 <= i < |order| => names[order[i]])
  }

  lemma {:induction false} NamesCovered(order: seq<nat>, names: seq<string>)
    requires Permutation(order, |names|)
    ensures Elements(NamesIn(order, names)) == Elements(names)
  {
    forall n | n in names
      ensures n in NamesIn(order, names)
    {
      var k: nat :| k < |names| && names[k] == n;
      assert k in order;
      var i :| 0 <= i < |order| && order[i] == k;
      assert NamesIn(order, names)[i] == n;
    }
  }

  /** The loop over groups is a loop over names when each group is its parameter's value. */
  lemma {:induction false} GroupsByName(
    words: Words, text: string, order: seq<nat>, names: seq<string>, groups: seq<string>, vals: map<string, string>)
    requires |groups| == |names| && forall i | 0 <= i < |order| :: order[i] < |names|
    requires forall k | 0 <= k < |names| :: names[k] in vals && groups[k] == vals[names[k]]
    ensures forall n | n in NamesIn(order, names) :: n in Expansions(words, vals)
    ensures ReplaceGroups(words, text, order, names, groups) ==
            ReplaceEach(text, NamesIn(order, names), Expansions(words, vals))
    decreases order
  {
    if order != [] {
      var n := names[order[0]];
      assert NamesIn(order, names)[1..] == NamesIn(order[1..], names);
      var next := ReplaceAll(text, ":" + n, Inserted(words, vals[n], n));
      GroupsByName(words, next, order[1..], names, groups, vals);
    }
  }

  /** What the values of a backend path have become when the groups are put back in `order`. */
  function Incoming(words: Words, names: seq<string>, vals: map<string, string>, order: seq<nat>)
    : (back: map<string, string>)
    requires vals.Keys == Elements(names) && Permutation(order, |names|)
    ensures back.Keys == vals.Keys
  {
    LoopNames(names, vals, order);
    Settled(NamesIn(order, names), Expansions(words, vals))
  }

  /** Every value: putting the groups back fills the pattern with what the values have become. */
  lemma {:induction false} PutBackFills(
    words: Words, p: Template, names: seq<string>, vals: map<string, string>, order: seq<nat>)
    requires Delimited(p) && Plain(p, vals.Keys) && PrefixFree(vals.Keys) && forall n | n in vals :: Name(n)
    requires vals.Keys == Elements(names) == Elements(Params(p)) && Permutation(order, |names|)
    ensures (forall n | n in names :: n in vals) && forall n | n in Params(p) :: n in vals
    ensures ReplaceGroups(words, Render(p), order, names, Values(names, vals)) ==
            Fill(p, Incoming(words, names, vals, order))
  {
    GroupsAsNames(words, Render(p), names, vals, order);
    NamesCovered(order, names);
    NamesFill(p, NamesIn(order, names), Expansions(words, vals));
  }

  lemma {:induction false} NamesFill(p: Template, loop: seq<string>, env: Env)
    requires Delimited(p) && Plain(p, env.Keys) && PrefixFree(env.Keys) && forall n | n in env :: Name(n)
    requires env.Keys == Elements(loop) == Elements(Params(p))
    ensures (forall n | n in loop :: n in env) && forall n | n in Params(p) :: n in Settled(loop, env)
    ensures Settled(loop, env).Keys == env.Keys
    ensures ReplaceEach(Render(p), loop, env) == Fill(p, Settled(loop, env))
  {
    assert forall n :: n in loop <==> n in Elements(loop);
    assert forall n | n in Params(p) :: n in Elements(Params(p));
    assert "" + Render(p) == Render(p);
    LoopFills("", p, loop, env, env.Keys);
  }

  lemma {:induction false} GroupsAsNames(
    words: Words, text: string, names: seq<string>, vals: map<string, string>, order: seq<nat>)
    requires vals.Keys == Elements(names) && Permutation(order, |names|)
    ensures forall n | n in names :: n in vals
    ensures forall n | n in NamesIn(order, names) :: n in Expansions(words, vals)
    ensures ReplaceGroups(words, text, order, names, Values(names, vals)) ==
            ReplaceEach(text, NamesIn(order, names), Expansions(words, vals))
  {
    LoopNames(names, vals, order);
    GroupsByName(words, text, order, names, Values(names, vals), vals);
  }

  lemma {:induction false} LoopNames(names: seq<string>, vals: map<string, string>, order: seq<nat>)
    requires vals.Keys == Elements(names) && Permutation(order, |names|)
    ensures forall n | n in names :: n in vals
    ensures forall n :: n in NamesIn(order, names) <==> n in vals
    ensures Elements(NamesIn(order, names)) == vals.Keys
  {
    NamesCovered(order, names);
    assert forall n :: n in names <==> n in Elements(names);
    assert forall n :: n in NamesIn(order, names) <==> n in Elements(NamesIn(order, names));
  }

  /** The path that `Repl` puts together for the values, by visiting the groups in `order`. */
  function Backward(
    words: Words, pattern: string, target: string, vals: map<string, string>, order: seq<nat>): string
    requires forall n | n in Params(Lex(target)) :: n in vals
    requires Permutation(order, |Params(Lex(target))|)
  {
    ReplaceGroups(words, pattern, order, Params(Lex(target)), Groups(Lex(target), vals))
  }

  /** A value comes back unchanged if it has no reference and no placeholder in it is replaced after its own. */
  lemma {:induction false} IncomingKeeps(
    words: Words, names: seq<string>, vals: map<string, string>, order: seq<nat>, n: string)
    requires vals.Keys == Elements(names) && Permutation(order, |names|) && n in NamesIn(order, names)
    requires n in vals && !HasReference(words, vals[n])
    requires Avoids(vals[n], Following(NamesIn(order, names), n))
    ensures Incoming(words, names, vals, order)[n] == vals[n]
  {
    NoReferenceLiteral(words, vals[n], n);
    RenderLits(vals[n]);
    Untouched(vals[n], Following(NamesIn(order, names), n), Expansions(words, vals));
  }

  // ------------------------------------------------------------------ there and back

  /** What the values are when they come back. */
  function Returned(words: Words, pattern: string, target: string, vals: map<string, string>, order: seq<nat>)
    : (back: map<string, string>)
    requires Elements(Params(Lex(pattern))) == Elements(Params(Lex(target)))
    requires Permutation(order, |Params(Lex(target))|)
    ensures back.Keys == Elements(Params(Lex(pattern)))
  {
    Incoming(words, Params(Lex(target)), Outgoing(pattern, vals), order)
  }

  lemma {:induction false} ExpandSegment(words: Words, v: string, n: string)
    requires Name(n) && '/' !in v
    ensures '/' !in Render(Expand(words, v, n))
    decreases |v|
  {
    if v != "" {
      var next := Taken(words, v);
      ExpandSegment(words, v[next..], n);
      var rest := Expand(words, v[next..], n);
      assert ([Lit(v[0])] + rest)[1..] == rest && ([Param(n)] + rest)[1..] == rest;
    }
  }

  lemma {:induction false} IncomingSlashFree(
    words: Words, names: seq<string>, vals: map<string, string>, order: seq<nat>)
    requires vals.Keys == Elements(names) && Permutation(order, |names|)
    requires forall n | n in vals :: Name(n) && '/' !in vals[n]
    ensures forall n | n in Incoming(words, names, vals, order) :: '/' !in Incoming(words, names, vals, order)[n]
  {
    var loop, env := NamesIn(order, names), Expansions(words, vals);
    NamesCovered(order, names);
    assert forall n :: n in loop <==> n in Elements(loop);
    forall n | n in vals
      ensures '/' !in Render(env[n])
    {
      ExpandSegment(words, vals[n], n);
    }
    forall n | n in loop
      ensures '/' !in Settle(loop, env, n)
    {
      ReplaceEachSegment(Render(env[n]), Following(loop, n), env);
    }
  }

  /**
    The round trip, for every value: the target matches the backend path and gives back what
    went out; and putting the groups back, in any order, gives the path that was requested
    if and only if every value has come back as it was.
   */
  lemma {:induction false} PatternRoundTrip(
    words: Words, backendUrl: string, pattern: string, target: string, vals: map<string, string>, order: seq<nat>)
    requires WellFormed(backendUrl, pattern, target) && Requested(pattern, vals)
    requires Permutation(order, |Params(Lex(target))|)
    ensures var out, back := Outgoing(pattern, vals), Returned(words, pattern, target, vals, order);
      && out.Keys == back.Keys == vals.Keys
      && (forall n | n in Params(Lex(target)) :: n in vals) && (forall n | n in Params(Lex(pattern)) :: n in vals)
      && Match(Lex(target), BackendPath(pattern, target, vals)) == Some(Groups(Lex(target), out))
      && Backward(words, pattern, target, out, order) == Fill(Lex(pattern), back)
      && (Backward(words, pattern, target, out, order) == Fill(Lex(pattern), vals) <==> back == vals)
  {
    var p, t, out := Lex(pattern), Lex(target), Outgoing(pattern, vals);
    assert forall n | n in Params(t) :: n in Elements(Params(t));
    ParamNames(p);
    OutgoingSegments(pattern, vals);
    MatchFilled(t, out);
    PutBackFills(words, p, Params(t), out, order);
    IncomingSlashFree(words, Params(t), out, order);
    FillExact(p, Incoming(words, Params(t), out, order), vals);
  }

  /** Values without a placeholder and without a reference come back. */
  lemma {:induction false} HarmlessReturns(
    words: Words, pattern: string, target: string, vals: map<string, string>, order: seq<nat>)
    requires vals.Keys == Elements(Params(Lex(pattern))) == Elements(Params(Lex(target)))
    requires Permutation(order, |Params(Lex(target))|)
    requires forall n | n in vals :: NoPlaceholder(vals[n], vals.Keys) && !HasReference(words, vals[n])
    ensures Outgoing(pattern, vals) == vals && Returned(words, pattern, target, vals, order) == vals
  {
    HarmlessSent(Params(Lex(pattern)), vals);
    HarmlessBack(words, Params(Lex(target)), vals, order);
  }

  lemma {:induction false} HarmlessSent(order: seq<string>, vals: map<string, string>)
    requires vals.Keys == Elements(order) && forall n | n in vals :: NoPlaceholder(vals[n], vals.Keys)
    ensures Sent(order, vals) == vals
  {
    assert forall n :: n in order <==> n in Elements(order);
    forall n | n in vals
      ensures Sent(order, vals)[n] == vals[n]
    {
      SentKeeps(order, vals, n);
    }
  }

  lemma {:induction false} HarmlessBack(words: Words, names: seq<string>, vals: map<string, string>, order: seq<nat>)
    requires vals.Keys == Elements(names) && Permutation(order, |names|)
    requires forall n | n in vals :: NoPlaceholder(vals[n], vals.Keys) && !HasReference(words, vals[n])
    ensures Incoming(words, names, vals, order) == vals
  {
    LoopNames(names, vals, order);
    forall n | n in vals
      ensures Incoming(words, names, vals, order)[n] == vals[n]
    {
      IncomingKeeps(words, names, vals, order, n);
    }
  }

  // ------------------------------------------------------------------ which values always come back

  predicate Distinct(names: seq<string>) {
    forall i, j | 0 <= i < j < |names| :: names[i] != names[j]
  }

  lemma {:induction false} FollowingOthers(order: seq<string>, n: string)
    requires Distinct(order) && n in order
    ensures n !in Following(order, n)
    decreases order
  {
    if order[0] != n {
      FollowingOthers(order[1..], n);
    }
  }

  lemma {:induction false} NamesDistinct(order: seq<nat>, names: seq<string>)
    requires Permutation(order, |names|) && Distinct(names)
    ensures Distinct(NamesIn(order, names))
  {
    forall i, j | 0 <= i < j < |order|
      ensures NamesIn(order, names)[i] != NamesIn(order, names)[j]
    {
      assert order[i] < order[j] || order[j] < order[i];
    }
  }

  /** A value for `n` comes back, whatever the other values are and however the groups are visited. */
  ghost predicate AlwaysReturns(words: Words, pattern: string, target: string, n: string, v: string)
    requires Elements(Params(Lex(pattern))) == Elements(Params(Lex(target))) && n in Elements(Params(Lex(pattern)))
  {
    forall vals: map<string, string>, order: seq<nat> |
      Requested(pattern, vals) && vals[n] == v && Permutation(order, |Params(Lex(target))|) ::
      Returned(words, pattern, target, vals, order)[n] == v
  }

  /** It has no reference and no placeholder of another parameter. */
  ghost predicate Transits(words: Words, v: string, names: set<string>, n: string) {
    !HasReference(words, v) && NoPlaceholder(v, names - {n})
  }

  lemma {:induction false} TransitReturns(
    words: Words, pattern: string, target: string, vals: map<string, string>, order: seq<nat>, n: string)
    requires vals.Keys == Elements(Params(Lex(pattern))) == Elements(Params(Lex(target))) && n in vals
    requires Distinct(Params(Lex(pattern))) && Distinct(Params(Lex(target)))
    requires Permutation(order, |Params(Lex(target))|) && Transits(words, vals[n], vals.Keys, n)
    ensures Returned(words, pattern, target, vals, order)[n] == vals[n]
  {
    var names, p, out := Params(Lex(target)), Params(Lex(pattern)), Outgoing(pattern, vals);
    assert forall m :: m in p <==> m in Elements(p);
    FollowingOthers(p, n);
    SentKeeps(p, vals, n);
    LoopNames(names, out, order);
    NamesDistinct(order, names);
    FollowingOthers(NamesIn(order, names), n);
    IncomingKeeps(words, names, out, order, n);
  }

  /** The value `v` for `n`, and "x" for every other parameter. */
  function Probe(names: set<string>, n: string, v: string): (vals: map<string, string>)
    ensures vals.Keys == names && (Segment(v) ==> forall m | m in vals :: Segment(vals[m]))
  {
    assert 'x' != '/' && Segment("x");
    map m | m in names :: if m == n then v else "x"
  }

  lemma {:induction false} SentPlain(order: seq<string>, vals: map<string, string>, n: string)
    requires n in order && n in vals && ':' !in vals[n]
    ensures Sent(order, vals)[n] == vals[n]
  {
    forall m | m in Following(order, n)
      ensures !Occurs(":" + m, vals[n])
    {
      ColonFree(vals[n], m);
    }
    SentKeeps(order, vals, n);
  }

  lemma {:induction false} ProbeSent(order: seq<string>, n: string, v: string)
    requires Distinct(order) && n in order && forall m | m in order :: Name(m)
    ensures var out := Sent(order, Probe(Elements(order), n, v));
      && (forall m | m in order && m != n :: out[m] == "x")
      && Dollars(out[n]) == Dollars(v) && |out[n]| <= |v|
      && (|out[n]| == |v| ==> out[n] == v && Avoids(v, Following(order, n)))
  {
    var vals := Probe(Elements(order), n, v);
    assert forall m | m in order :: m in Elements(order);
    forall m | m in order && m != n
      ensures Sent(order, vals)[m] == "x"
    {
      SentPlain(order, vals, m);
    }
    FollowingOthers(order, n);
    RenderLits(v);
    RenderLits("x");
    LoopWithX(v, Following(order, n), Literals(vals, order));
  }

  lemma {:induction false} ExpandX(words: Words, n: string)
    ensures Render(Expand(words, "x", n)) == "x"
  {
    assert !HasReference(words, "x");
    NoReferenceLiteral(words, "x", n);
    RenderLits("x");
  }

  /** If the value comes back when its group is visited first, it is one that always does. */
  lemma {:induction false} ProbeBack(
    words: Words, names: seq<string>, n: string, out: map<string, string>, order: seq<nat>)
    requires Distinct(names) && out.Keys == Elements(names) && forall m | m in names :: Name(m)
    requires Permutation(order, |names|) && |order| > 0 && names[order[0]] == n
    requires forall m | m in out && m != n :: out[m] == "x"
    ensures var w := Incoming(words, names, out, order)[n];
      && Dollars(w) <= Dollars(out[n])
      && (Dollars(w) == Dollars(out[n]) ==> !HasReference(words, out[n]) && |w| <= |out[n]|)
      && (Dollars(w) == Dollars(out[n]) && |w| == |out[n]| ==> NoPlaceholder(out[n], out.Keys - {n}))
  {
    var loop := NamesIn(order, names);
    LoopNames(names, out, order);
    NamesDistinct(order, names);
    FollowingOthers(loop, n);
    assert loop == [n] + loop[1..];
    forall m | m in loop[1..]
      ensures Render(Expansions(words, out)[m]) == "x"
    {
      ExpandX(words, m);
    }
    ReferenceCosts(words, out[n], n);
    LoopWithX(Render(Expand(words, out[n], n)), loop[1..], Expansions(words, out));
    ExpansionIsIdentity(words, out[n], n);
  }

  /** The order that visits index `k` first. */
  function Foremost(k: nat, n: nat): (order: seq<nat>)
    requires k < n
    ensures |order| > 0 && order[0] == k && Permutation(order, n)
  {
    [k] + Others(k, n)
  }

  function Others(k: nat, n: nat): (order: seq<nat>)
    ensures Visits(order, Indexes(n) - {k})
  {
    if n == 0 then []
    else
      var before := Others(k, n - 1);
      if n - 1 == k then before else before + [n - 1]
  }

  /**
    Exactly which values always come back: those without a reference and without another
    parameter's placeholder. Neither side of the configuration names a parameter twice.
   */
  lemma {:induction false} ValueReturnsExactly(
    words: Words, backendUrl: string, pattern: string, target: string, n: string, v: string)
    requires WellFormed(backendUrl, pattern, target) && n in Elements(Params(Lex(pattern))) && Segment(v)
    requires Distinct(Params(Lex(pattern))) && Distinct(Params(Lex(target)))
    ensures AlwaysReturns(words, pattern, target, n, v) <==>
            Transits(words, v, Elements(Params(Lex(pattern))), n)
  {
    var sent, names := Params(Lex(pattern)), Params(Lex(target));
    if Transits(words, v, Elements(sent), n) {
      forall vals: map<string, string>, order: seq<nat> |
        Requested(pattern, vals) && vals[n] == v && Permutation(order, |names|)
        ensures Returned(words, pattern, target, vals, order)[n] == v
      {
        TransitReturns(words, pattern, target, vals, order, n);
      }
    } else {
      ParamNames(Lex(pattern));
      var order := ProbeFails(words, sent, names, n, v);
      assert Requested(pattern, Probe(Elements(sent), n, v));
      assert Returned(words, pattern, target, Probe(Elements(sent), n, v), order)[n] != v;
    }
  }

  lemma {:induction false} ProbeFails(words: Words, sent: seq<string>, names: seq<string>, n: string, v: string)
    returns (order: seq<nat>)
    requires Distinct(sent) && Distinct(names) && Elements(sent) == Elements(names) && n in Elements(sent)
    requires (forall m | m in sent :: Name(m)) && !Transits(words, v, Elements(sent), n)
    ensures Permutation(order, |names|)
    ensures Incoming(words, names, Sent(sent, Probe(Elements(sent), n, v)), order)[n] != v
  {
    assert n in Elements(names);
    var k: nat :| k < |names| && names[k] == n;
    order := Foremost(k, |names|);
    ProbeTells(words, sent, names, n, v, order);
  }

  /** A value that comes back past "x" for all the others, its group visited first, is one that always does. */
  lemma {:induction false} ProbeTells(
    words: Words, sent: seq<string>, names: seq<string>, n: string, v: string, order: seq<nat>)
    requires Distinct(sent) && Distinct(names) && Elements(sent) == Elements(names) && n in sent
    requires forall m | m in sent :: Name(m)
    requires Permutation(order, |names|) && |order| > 0 && names[order[0]] == n
    ensures n in Elements(sent)
    ensures Incoming(words, names, Sent(sent, Probe(Elements(sent), n, v)), order)[n] == v ==>
            Transits(words, v, Elements(sent), n)
  {
    assert forall m :: m in sent <==> m in Elements(sent);
    assert forall m :: m in names <==> m in Elements(names);
    ProbeSent(sent, n, v);
    ProbeBack(words, names, n, Sent(sent, Probe(Elements(sent), n, v)), order);
  }

  /** A value for `n` goes out unchanged, whatever the other values are. */
  ghost predicate AlwaysSent(order: seq<string>, n: string, v: string)
    requires n in order
  {
    forall vals: map<string, string> | Carries(order, vals) && n in vals && vals[n] == v :: Sent(order, vals)[n] == v
  }

  /** Exactly those values always go out unchanged in which no placeholder occurs that is replaced later. */
  lemma {:induction false} ValueSentExactly(order: seq<string>, n: string, v: string)
    requires n in order && Segment(v) && Distinct(order) && forall m | m in order :: Name(m)
    ensures AlwaysSent(order, n, v) <==> Avoids(v, Following(order, n))
  {
    if Avoids(v, Following(order, n)) {
      forall vals: map<string, string> | Carries(order, vals) && n in vals && vals[n] == v
        ensures Sent(order, vals)[n] == v
      {
        SentKeeps(order, vals, n);
      }
    } else {
      var probe := Probe(Elements(order), n, v);
      ProbeSent(order, n, v);
      assert Carries(order, probe) && Sent(order, probe)[n] != v;
    }
  }

  // ------------------------------------------------------------------ values without a colon

  /** The parameters of the template are `n` and no other. */
  predicate OnlyOwn(ts: Template, n: string) {
    forall i | 0 <= i < |ts| && ts[i].Param? :: ts[i].name == n
  }

  lemma {:induction false} ExpandPlain(words: Words, v: string, n: string, names: set<string>)
    requires ':' !in v && Name(n) && n in names
    ensures Plain(Expand(words, v, n), names) && OnlyOwn(Expand(words, v, n), n)
    decreases |v|
  {
    if v != "" {
      ExpandPlain(words, v[Taken(words, v)..], n, names);
    }
  }

  lemma {:induction false} RenderColon(ts: Template, names: set<string>)
    requires Plain(ts, names)
    ensures ':' in Render(ts) <==> !Literal(ts)
    decreases ts
  {
    if ts != [] {
      RenderColon(ts[1..], names);
      assert ts == [ts[0]] + ts[1..];
      assert forall m | Name(m) :: ':' !in m;
    }
  }

  lemma {:induction false} BindOwn(ts: Template, env: Env, n: string)
    requires OnlyOwn(ts, n) && n in env && OnlyOwn(env[n], n) && !Literal(env[n])
    ensures OnlyOwn(Bind(ts, env, {n}), n) && (Literal(Bind(ts, env, {n})) <==> Literal(ts))
    decreases ts
  {
    if ts != [] {
      BindOwn(ts[1..], env, n);
      var a, b := BindToken(ts[0], env, {n}), Bind(ts[1..], env, {n});
      assert forall i | 0 <= i < |a| :: (a + b)[i] == a[i];
      assert forall i | 0 <= i < |b| :: (a + b)[|a| + i] == b[i];
      assert ts == [ts[0]] + ts[1..];
    }
  }

  /** A placeholder that comes from a reference to the whole match never goes again. */
  lemma {:induction false} ColonStays(ts: Template, n: string, order: seq<string>, env: Env, names: set<string>)
    requires PrefixFree(names) && Plain(ts, names) && OnlyOwn(ts, n) && !Literal(ts)
    requires n in env && OnlyOwn(env[n], n) && !Literal(env[n]) && forall m | m in env :: Plain(env[m], names)
    requires forall m | m in order :: m in env && m in names && Name(m)
    ensures ':' in ReplaceEach(Render(ts), order, env)
    decreases order
  {
    if order == [] {
      RenderColon(ts, names);
    } else {
      var m := order[0];
      PlainIsSafe(ts, names, m);
      ReplaceBinds(ts, m, env);
      if m == n {
        BindOwn(ts, env, n);
        BindPlain(ts, env, {n}, names);
      } else {
        Unbound(ts, env, {m});
      }
      ColonStays(Bind(ts, env, {m}), n, order[1..], env, names);
    }
  }

  /** A value without ':' comes back if and only if it has no reference. */
  lemma {:induction false} ColonFreeExact(
    words: Words, names: seq<string>, vals: map<string, string>, order: seq<nat>, n: string)
    requires vals.Keys == Elements(names) && PrefixFree(vals.Keys) && Permutation(order, |names|) && n in vals
    requires forall m | m in vals :: Name(m) && ':' !in vals[m]
    ensures Incoming(words, names, vals, order)[n] == vals[n] <==> !HasReference(words, vals[n])
  {
    var loop, env, e := NamesIn(order, names), Expansions(words, vals), Expand(words, vals[n], n);
    LoopNames(names, vals, order);
    forall m | m in vals
      ensures Plain(env[m], vals.Keys) && OnlyOwn(env[m], m)
    {
      ExpandPlain(words, vals[m], m, vals.Keys);
    }
    var later := Following(loop, n);
    if Literal(e) {
      RenderColon(e, vals.Keys);
      forall m | m in later
        ensures !Occurs(":" + m, Render(e))
      {
        ColonFree(Render(e), m);
      }
      Untouched(Render(e), later, env);
      ExpansionIsIdentity(words, vals[n], n);
    } else {
      ColonStays(e, n, later, env, vals.Keys);
      if !HasReference(words, vals[n]) {
        NoReferenceLiteral(words, vals[n], n);
      }
    }
  }

  /** For values without ':' the path comes back, whatever the order, if and only if no value has a reference. */
  lemma {:induction false} PatternRoundTripExact(
    words: Words, backendUrl: string, pattern: string, target: string, vals: map<string, string>, order: seq<nat>)
    requires WellFormed(backendUrl, pattern, target) && Requested(pattern, vals)
    requires forall n | n in vals :: ':' !in vals[n]
    requires Permutation(order, |Params(Lex(target))|)
    ensures (forall n | n in Params(Lex(target)) :: n in vals) && (forall n | n in Params(Lex(pattern)) :: n in vals)
    ensures Match(Lex(target), Fill(Lex(target), vals)) == Some(Groups(Lex(target), vals))
    ensures Backward(words, pattern, target, vals, order) == Fill(Lex(pattern), vals) <==>
            forall n | n in vals :: !HasReference(words, vals[n])
  {
    PatternRoundTrip(words, backendUrl, pattern, target, vals, order);
    ParamNames(Lex(pattern));
    HarmlessColonFree(Params(Lex(pattern)), vals);
    forall n | n in vals
      ensures Returned(words, pattern, target, vals, order)[n] == vals[n] <==> !HasReference(words, vals[n])
    {
      ColonFreeExact(words, Params(Lex(target)), vals, order, n);
    }
  }

  lemma {:induction false} HarmlessColonFree(order: seq<string>, vals: map<string, string>)
    requires vals.Keys == Elements(order) && forall n | n in vals :: ':' !in vals[n]
    ensures Sent(order, vals) == vals
  {
    assert forall n :: n in order <==> n in Elements(order);
    forall n | n in vals
      ensures Sent(order, vals)[n] == vals[n]
    {
      SentPlain(order, vals, n);
    }
  }

  // ------------------------------------------------------------------ backend URLs with a path

  function Slashes(s: string): nat {
    if s == "" then 0 else (if s[0] == '/' then 1 else 0) + Slashes(s[1..])
  }

  function SlashTokens(ts: Template): nat {
    if ts == [] then 0 else (if ts[0] == Lit('/') then 1 else 0) + SlashTokens(ts[1..])
  }

  lemma {:induction false} SlashesConcat(a: string, b: string)
    ensures Slashes(a + b) == Slashes(a) + Slashes(b)
    decreases a
  {
    if a == "" {
      assert a + b == b;
    } else {
      assert (a + b)[1..] == a[1..] + b;
      SlashesConcat(a[1..], b);
    }
  }

  lemma {:induction false} NoSlashes(s: string)
    requires '/' !in s
    ensures Slashes(s) == 0
    decreases s
  {
    if s != "" {
      NoSlashes(s[1..]);
    }
  }

  /** Whatever a target matches has as many slashes as the target. */
  lemma {:induction false} SplitSlashes(ts: Template, path: string, groups: seq<string>)
    requires Splits(ts, path, groups)
    ensures Slashes(path) == SlashTokens(ts)
    decreases |ts|
  {
    if ts != [] {
      match ts[0]
      case Lit(_) => SplitSlashes(ts[1..], path[1..], groups);
      case Param(_) =>
        var v := groups[0];
        SplitSlashes(ts[1..], path[|v|..], groups[1..]);
        assert path == v + path[|v|..];
        SlashesConcat(v, path[|v|..]);
        NoSlashes(v);
    }
  }

  /** A link to a backend whose URL has a path `pre` is matched by its own target if and only if there is none. */
  lemma {:induction false} BackendPathExact(
    backendUrl: string, pattern: string, target: string, vals: map<string, string>, pre: string)
    requires WellFormed(backendUrl, pattern, target) && Requested(pattern, vals) && Separate(pre)
    ensures Match(Lex(target), pre + BackendPath(pattern, target, vals)).Some? <==> pre == ""
  {
    var t, path := Lex(target), BackendPath(pattern, target, vals);
    OutgoingSegments(pattern, vals);
    assert forall n | n in Params(t) :: n in Elements(Params(t));
    MatchFilled(t, Outgoing(pattern, vals));
    MatchExact(t, path);
    SplitSlashes(t, path, Match(t, path).value);
    MatchExact(t, pre + path);
    SlashesConcat(pre, path);
    assert pre == "" ==> pre + path == path;
    if Match(t, pre + path).Some? {
      SplitSlashes(t, pre + path, Match(t, pre + path).value);
    }
  }

  // ------------------------------------------------------------------ a link among many mappings

  /** No mapping but this one matches the path. */
  ghost predicate OnlyMatch(mappings: seq<Mapping>, m: Mapping, path: string) {
    m in mappings && forall other | other in mappings && other != m :: Find(other.expr, path).None?
  }

  /**
    The whole way for a link to the backend path of a request, with any number of patterns
    and for every value: `RewriteUrl` answers with the public pattern filled with the values
    that come back, on the requested host, however the mappings and the groups are ordered;
    and with the path that was requested if no value has a placeholder or a reference.
   */
  lemma {:induction false} LinkRestored(
    words: Words, mappings: seq<Mapping>, link: Url, req: Url, r: UrlResult<Url>,
    backendUrl: string, pattern: string, target: string, vals: map<string, string>)
    requires WellFormed(backendUrl, pattern, target) && Requested(pattern, vals)
    requires link.path == BackendPath(pattern, target, vals)
    requires OnlyMatch(mappings, Mapping(Anchored(Lex(target)), pattern), link.path)
    requires MayAnswer(words, mappings, Some(link), req, r)
    ensures forall n | n in Params(Lex(pattern)) :: n in vals
    ensures exists order | Permutation(order, |Params(Lex(target))|) ::
      r == Mapped(link.(scheme := req.scheme, host := req.host,
                        path := Fill(Lex(pattern), Returned(words, pattern, target, vals, order))))
    ensures (forall n | n in vals :: NoPlaceholder(vals[n], vals.Keys) && !HasReference(words, vals[n])) ==>
      r == Mapped(link.(scheme := req.scheme, host := req.host, path := Fill(Lex(pattern), vals)))
  {
    var m, out := Mapping(Anchored(Lex(target)), pattern), Outgoing(pattern, vals);
    assert forall n | n in Params(Lex(pattern)) :: n in Elements(Params(Lex(pattern)));
    OutgoingSegments(pattern, vals);
    assert forall n | n in Params(Lex(target)) :: n in Elements(Params(Lex(target)));
    MatchFilled(Lex(target), out);
    assert r.Mapped?;
    var used: nat, order: seq<nat> :| Rewrites(words, mappings, link, req, r.url, used, order);
    assert mappings[used] == m;
    PatternRoundTrip(words, backendUrl, pattern, target, vals, order);
    if forall n | n in vals :: NoPlaceholder(vals[n], vals.Keys) && !HasReference(words, vals[n]) {
      HarmlessReturns(words, pattern, target, vals, order);
    }
  }

  /** A dollar sign in a value: the request for /a$b of the pattern /:id comes back as /a. */
  lemma {:induction false} DollarExample(words: Words)
    ensures ReplaceGroups(words, "/:id", [0], ["id"], ["a$b"]) == "/a"
  {
    assert Expand(words, "$b", "id") == [] by {
      assert "$b"[1..] == "b" && "b"[1..] == "" && "$b"[2..] == "" && "$b"[1..2] == "b";
      assert WordRun(words, "b") == 1 + WordRun(words, "") && Reference(words, "b") == 1;
      assert Expand(words, "$b", "id") == Expand(words, "", "id");
    }
    assert "a$b"[1..] == "$b" && Expand(words, "a$b", "id") == [Lit('a')] + Expand(words, "$b", "id");
    assert Render([Lit('a')]) == "a";
    assert ReplaceAll("/:id", ":id", "a") == "/a" by {
      assert "/:id"[1..] == ":id" && ":id"[3..] == "";
    }
    assert ":" + "id" == ":id" && [0][1..] == [];
  }

  /** A placeholder in a value: with ":b" for a and "x" for b the target /:a becomes /x, not /:b. */
  lemma {:induction false} PlaceholderExample()
    ensures ReplaceEach("/:a", ["a", "b"], Literals(map["a" := ":b", "b" := "x"], ["a", "b"])) == "/x"
  {
    var env := Literals(map["a" := ":b", "b" := "x"], ["a", "b"]);
    RenderLits(":b");
    RenderLits("x");
    assert ReplaceAll("/:a", ":a", ":b") == "/:b" by {
      assert "/:a"[1..] == ":a" && ":a"[2..] == "";
    }
    assert ReplaceAll("/:b", ":b", "x") == "/x" by {
      assert "/:b"[1..] == ":b" && ":b"[2..] == "";
    }
    assert ["a", "b"][1..] == ["b"] && ["b"][1..] == [];
    assert ":" + "a" == ":a" && ":" + "b" == ":b";
  }
}
