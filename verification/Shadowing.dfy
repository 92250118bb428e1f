/**
  Parameters of which one's name begins another's: a replacement for ":id" also hits the
  placeholder ":idx". What the loops then make of a pattern, and exactly which configurations
  they fill correctly.
 */
module Shadowing {
  import opened Results
  import opened Substitution
  import opened Expansion
  import opened Filling
  import opened Routing
  import opened RoundTrip

  // ------------------------------------------------------------------ the loop, whatever the names

  /** The literals of the pattern are free of ':', and its parameters are names. */
  predicate Loose(ts: Template) {
    forall i | 0 <= i < |ts| :: match ts[i] case Lit(c) => c != ':' case Param(m) => Name(m)
  }

  /** What becomes of the placeholder of `m`: the first name that begins `m` hits it, and the rest of `m` stays. */
  function Hit(order: seq<string>, vals: map<string, string>, m: string): string
    requires forall n | n in order :: n in vals
  {
    if order == [] then ":" + m
    else if order[0] <= m then vals[order[0]] + m[|order[0]|..]
    else Hit(order[1..], vals, m)
  }

  /** A longer name, or another one, does not match at a placeholder that is followed by a slash or the end. */
  lemma {:induction false} NotHit(m: string, n: string, rest: string)
    requires Name(n) && Separate(rest) && n <= m + rest
    ensures n <= m
  {
    assert forall i | 0 <= i < |n| :: (m + rest)[i] == n[i] && n[i] != '/';
    assert rest != "" ==> (m + rest)[|m|] == '/';
    assert n == (m + rest)[..|n|] == m[..|n|];
  }

  /** One replacement on such a placeholder. */
  lemma {:induction false} HitOne(m: string, n: string, rest: string, w: string)
    requires Name(m) && Name(n) && Separate(rest)
    ensures ReplaceAll(":" + m + rest, ":" + n, w) ==
            (if n <= m then w + m[|n|..] else ":" + m) + ReplaceAll(rest, ":" + n, w)
  {
    var s, p := ":" + m + rest, ":" + n;
    assert s[1..] == m + rest && p[1..] == n && s[0] == p[0];
    if n <= m {
      assert p <= s && s[|p|..] == m[|n|..] + rest;
      SkipPlain(m[|n|..], rest, n, w);
    } else {
      assert p <= s ==> p[1..] <= s[1..];
      if n <= m + rest {
        NotHit(m, n, rest);
      }
      SkipPlain(m, rest, n, w);
    }
  }

  /** What the replacement of `n` makes of the placeholders, when those in `cur` have been hit before. */
  function HitBy(names: set<string>, cur: map<string, string>, n: string, w: string): map<string, string> {
    map m | m in names && (m in cur || n <= m) :: if m in cur then cur[m] else w + m[|n|..]
  }

  ghost predicate ColonFreeMap(cur: map<string, string>) {
    forall m | m in cur :: ':' !in cur[m]
  }

  lemma {:induction false} HitStep(ts: Template, names: set<string>, cur: map<string, string>, n: string, w: string)
    requires Delimited(ts) && Loose(ts) && Name(n) && ColonFreeMap(cur)
    requires cur.Keys <= names && forall m | m in Params(ts) :: m in names
    ensures ReplaceAll(Show(ts, cur), ":" + n, w) == Show(ts, HitBy(names, cur, n, w))
    decreases ts
  {
    if ts != [] {
      DelimitedTail(ts);
      ParamsCons(ts);
      HitStep(ts[1..], names, cur, n, w);
      var rest := Show(ts[1..], cur);
      match ts[0]
      case Lit(c) =>
        assert c != ':' && ([c] + rest)[0] == c && ([c] + rest)[1..] == rest;
      case Param(m) =>
        assert ts[1..] != [] ==> ts[1..][0] == ts[1] == Lit('/') && rest[0] == '/';
        if m in cur {
          ColonFree(cur[m], n);
          NothingReplaced(cur[m], ":" + n, w);
          ReplaceSplits(cur[m], rest, n, w);
        } else {
          HitOne(m, n, rest, w);
        }
    }
  }

  /** Where all placeholders end up. */
  function Hits(names: set<string>, cur: map<string, string>, order: seq<string>, vals: map<string, string>)
    : map<string, string>
    requires forall n | n in order :: n in vals
  {
    map m | m in names :: if m in cur then cur[m] else Hit(order, vals, m)
  }

  lemma {:induction false} HitsStep(
    names: set<string>, cur: map<string, string>, order: seq<string>, vals: map<string, string>)
    requires order != [] && (forall n | n in order :: n in vals) && cur.Keys <= names
    ensures Hits(names, HitBy(names, cur, order[0], vals[order[0]]), order[1..], vals) == Hits(names, cur, order, vals)
  {
    var next := HitBy(names, cur, order[0], vals[order[0]]);
    forall m | m in names
      ensures (if m in next then next[m] else Hit(order[1..], vals, m)) ==
              if m in cur then cur[m] else Hit(order, vals, m)
    {
    }
  }

  lemma {:induction false} LoopHits(
    ts: Template, names: set<string>, cur: map<string, string>, order: seq<string>, vals: map<string, string>, env: Env)
    requires Delimited(ts) && Loose(ts) && ColonFreeMap(cur) && ColonFreeMap(vals)
    requires cur.Keys <= names && (forall m | m in Params(ts) :: m in names) && forall m | m in names :: Name(m)
    requires forall n | n in order :: n in vals && n in env && Name(n) && Render(env[n]) == vals[n]
    ensures ReplaceEach(Show(ts, cur), order, env) == Show(ts, Hits(names, cur, order, vals))
    decreases order
  {
    if order == [] {
      ShowUndone(ts, names, cur, vals);
    } else {
      var n := order[0];
      var next := HitBy(names, cur, n, vals[n]);
      HitStep(ts, names, cur, n, vals[n]);
      HitsStep(names, cur, order, vals);
      HitColonFree(names, cur, n, vals[n]);
      LoopHits(ts, names, next, order[1..], vals, env);
    }
  }

  lemma {:induction false} HitColonFree(names: set<string>, cur: map<string, string>, n: string, w: string)
    requires ColonFreeMap(cur) && ':' !in w && forall m | m in names :: Name(m)
    ensures ColonFreeMap(HitBy(names, cur, n, w))
  {
    forall m | m in names && m !in cur && n <= m
      ensures ':' !in w + m[|n|..]
    {
      assert forall c | c in m[|n|..] :: c in m;
    }
  }

  /** What is never hit stays a placeholder. */
  lemma {:induction false} ShowUndone(
    ts: Template, names: set<string>, cur: map<string, string>, vals: map<string, string>)
    requires forall m | m in Params(ts) :: m in names
    ensures Show(ts, cur) == Show(ts, Hits(names, cur, [], vals))
    decreases ts
  {
    if ts != [] {
      ParamsCons(ts);
      ShowUndone(ts[1..], names, cur, vals);
    }
  }

  /**
    For all names and all values without ':', the loop fills the pattern with what first hits
    each placeholder.
   */
  lemma {:induction false} LoopHitsAll(
    pre: string, ts: Template, order: seq<string>, vals: map<string, string>, env: Env)
    requires Delimited(ts) && Loose(ts) && ColonFreeMap(vals)
    requires forall n | n in order :: n in vals && n in env && Name(n) && Render(env[n]) == vals[n]
    requires NoPlaceholder(pre, Elements(order)) && (ts == [] || pre == "" || ts[0] == Lit('/'))
    ensures var hits := Hits(Elements(Params(ts)), map[], order, vals);
      (forall m | m in Params(ts) :: m in hits) && ReplaceEach(pre + Render(ts), order, env) == pre + Fill(ts, hits)
  {
    var names := Elements(Params(ts));
    assert forall m | m in Params(ts) :: m in names;
    assert forall n | n in order :: n in Elements(order);
    ParamNames(ts);
    LoopBehind(pre, Render(ts), order, env);
    ShowIsRender(ts);
    LoopHits(ts, names, map[], order, vals, env);
    ShowIsFill(ts, Hits(names, map[], order, vals));
  }

  // ------------------------------------------------------------------ which configurations are filled

  /** The first name in the order that begins `m` is `m` itself. */
  predicate Unshadowed(order: seq<string>, m: string) {
    order != [] && (order[0] == m || (!(order[0] <= m) && Unshadowed(order[1..], m)))
  }

  /** Said with positions: `m` is replaced, and no name before it is a proper prefix of it. */
  lemma {:induction false} UnshadowedExact(order: seq<string>, m: string)
    ensures Unshadowed(order, m) <==>
      exists j | 0 <= j < |order| :: order[j] == m && forall i | 0 <= i < j :: !(order[i] <= m)
    decreases order
  {
    if order != [] && order[0] != m {
      var rest := order[1..];
      UnshadowedExact(rest, m);
      assert forall i | 0 <= i < |rest| :: rest[i] == order[i + 1];
      if Unshadowed(rest, m) {
        var j :| 0 <= j < |rest| && rest[j] == m && forall i | 0 <= i < j :: !(rest[i] <= m);
        assert order[j + 1] == m && forall i | 0 < i < j + 1 :: order[i] == rest[i - 1];
      }
    }
  }

  lemma {:induction false} UnshadowedHit(order: seq<string>, vals: map<string, string>, m: string)
    requires (forall n | n in order :: n in vals) && m in order
    ensures Unshadowed(order, m) ==> Hit(order, vals, m) == vals[m]
    ensures !Unshadowed(order, m) && (forall n | n in order :: |vals[n]| == 1) ==> |Hit(order, vals, m)| > 1
    decreases order
  {
    if order[0] != m && !(order[0] <= m) {
      UnshadowedHit(order[1..], vals, m);
    }
  }

  /** What the router finds, without ':'. */
  ghost predicate CarriesPlain(names: seq<string>, vals: map<string, string>) {
    Carries(names, vals) && ColonFreeMap(vals)
  }

  /** "x" for every name. */
  function Xs(names: set<string>): (vals: map<string, string>)
    ensures vals.Keys == names && forall n | n in vals :: vals[n] == "x" && Segment("x") && |vals[n]| == 1
  {
    assert Segment("x");
    map n | n in names :: "x"
  }

  /** The loop fills the template for all values without ':'. */
  ghost predicate AlwaysFills(ts: Template, order: seq<string>)
    requires forall m | m in Params(ts) :: m in Elements(order)
  {
    forall vals: map<string, string> | CarriesPlain(order, vals) ::
      Fill(ts, Hits(Elements(Params(ts)), map[], order, vals)) == Fill(ts, vals)
  }

  lemma {:induction false} FillsExactly(ts: Template, order: seq<string>)
    requires Delimited(ts) && Loose(ts)
    requires (forall m | m in Params(ts) :: m in order) && forall n | n in order :: Name(n)
    ensures (forall m | m in Params(ts) :: m in Elements(order))
    ensures AlwaysFills(ts, order) <==> forall m | m in Params(ts) :: Unshadowed(order, m)
  {
    var names := Elements(Params(ts));
    assert forall m | m in Params(ts) :: m in Elements(order) && m in names;
    if forall m | m in Params(ts) :: Unshadowed(order, m) {
      forall vals: map<string, string> | CarriesPlain(order, vals)
        ensures Fill(ts, Hits(names, map[], order, vals)) == Fill(ts, vals)
      {
        forall m | m in Params(ts)
          ensures Hit(order, vals, m) == vals[m]
        {
          UnshadowedHit(order, vals, m);
        }
        FillSame(ts, Hits(names, map[], order, vals), vals);
      }
    } else {
      var m :| m in Params(ts) && !Unshadowed(order, m);
      ShadowBreaks(ts, order, m);
    }
  }

  /** A shadowed parameter is filled wrongly even if every value is "x". */
  lemma {:induction false} ShadowBreaks(ts: Template, order: seq<string>, m: string)
    requires Delimited(ts) && Loose(ts) && m in Params(ts) && !Unshadowed(order, m)
    requires (forall n | n in Params(ts) :: n in order) && forall n | n in order :: Name(n)
    ensures forall n | n in Params(ts) :: n in Elements(order)
    ensures Fill(ts, Hits(Elements(Params(ts)), map[], order, Xs(Elements(order)))) != Fill(ts, Xs(Elements(order)))
  {
    var names, vals := Elements(Params(ts)), Xs(Elements(order));
    assert forall n | n in Params(ts) :: n in Elements(order) && n in names;
    UnshadowedHit(order, vals, m);
    HitsSlashFree(names, order, vals);
    if Fill(ts, Hits(names, map[], order, vals)) == Fill(ts, vals) {
      FillInjective(ts, Hits(names, map[], order, vals), vals);
    }
  }

  lemma {:induction false} FillSame(ts: Template, a: map<string, string>, b: map<string, string>)
    requires forall m | m in Params(ts) :: m in a && m in b && a[m] == b[m]
    ensures Fill(ts, a) == Fill(ts, b)
    decreases ts
  {
    if ts != [] {
      ParamsCons(ts);
      FillSame(ts[1..], a, b);
    }
  }

  lemma {:induction false} HitSlashFree(order: seq<string>, vals: map<string, string>, m: string)
    requires Name(m) && forall n | n in order :: n in vals && '/' !in vals[n]
    ensures '/' !in Hit(order, vals, m)
    decreases order
  {
    if order != [] {
      if order[0] <= m {
        assert forall c | c in m[|order[0]|..] :: c in m;
      } else {
        HitSlashFree(order[1..], vals, m);
      }
    }
  }

  lemma {:induction false} HitsSlashFree(names: set<string>, order: seq<string>, vals: map<string, string>)
    requires (forall m | m in names :: Name(m)) && forall n | n in order :: n in vals && '/' !in vals[n]
    ensures forall m | m in names :: '/' !in Hits(names, map[], order, vals)[m]
  {
    forall m | m in names
      ensures '/' !in Hit(order, vals, m)
    {
      HitSlashFree(order, vals, m);
    }
  }

  // ------------------------------------------------------------------ the two ways

  /** The backend URL is the target with the values in it, for all values without ':'. */
  ghost predicate AlwaysRouted(backendUrl: string, pattern: string, target: string)
    requires Elements(Params(Lex(target))) <= Elements(Params(Lex(pattern)))
  {
    var c := ClosureOf(backendUrl, pattern, target);
    forall vals: map<string, string> | CarriesPlain(c.parameters, vals) ::
      ReplaceEach(c.targetUrl, c.parameters, Literals(vals, c.parameters)) == backendUrl + PlainFill(target, vals)
  }

  function PlainFill(target: string, vals: map<string, string>): string
    requires Elements(Params(Lex(target))) <= vals.Keys
  {
    assert forall m | m in Params(Lex(target)) :: m in Elements(Params(Lex(target)));
    Fill(Lex(target), vals)
  }

  lemma {:induction false} LexLoose(text: string)
    requires forall i | 0 <= i < |Lex(text)| && Lex(text)[i].Lit? :: Lex(text)[i].c != ':'
    ensures Loose(Lex(text))
  {
  }

  /**
    On the way out all requests are routed right if and only if no name that is replaced
    earlier is a proper prefix of a parameter of the target.
   */
  lemma {:induction false} RoutedExactly(backendUrl: string, pattern: string, target: string)
    requires Delimited(Lex(target)) && (Lex(target) == [] || Lex(target)[0] == Lit('/'))
    requires forall i | 0 <= i < |Lex(target)| && Lex(target)[i].Lit? :: Lex(target)[i].c != ':'
    requires Elements(Params(Lex(target))) <= Elements(Params(Lex(pattern)))
    requires NoPlaceholder(backendUrl, Elements(Params(Lex(pattern))))
    ensures AlwaysRouted(backendUrl, pattern, target) <==>
            forall m | m in Params(Lex(target)) :: Unshadowed(Params(Lex(pattern)), m)
  {
    var t, order := Lex(target), Params(Lex(pattern));
    LexLoose(target);
    ParamNames(Lex(pattern));
    assert forall m | m in Params(t) :: m in Elements(Params(t));
    assert forall n :: n in order <==> n in Elements(order);
    FillsExactly(t, order);
    forall vals: map<string, string> | CarriesPlain(order, vals)
      ensures ReplaceEach(backendUrl + target, order, Literals(vals, order)) ==
              backendUrl + Fill(t, Hits(Elements(Params(t)), map[], order, vals))
      ensures var hit := Fill(t, Hits(Elements(Params(t)), map[], order, vals));
        backendUrl + hit == backendUrl + PlainFill(target, vals) <==> hit == PlainFill(target, vals)
    {
      RoutedHits(backendUrl, t, order, vals);
      SameTail(backendUrl, Fill(t, Hits(Elements(Params(t)), map[], order, vals)), PlainFill(target, vals));
    }
  }

  lemma {:induction false} SameTail(pre: string, a: string, b: string)
    ensures pre + a == pre + b <==> a == b
  {
    assert (pre + a)[|pre|..] == a && (pre + b)[|pre|..] == b;
  }

  lemma {:induction false} RoutedHits(pre: string, ts: Template, order: seq<string>, vals: map<string, string>)
    requires Delimited(ts) && Loose(ts) && CarriesPlain(order, vals) && forall n | n in order :: Name(n)
    requires NoPlaceholder(pre, Elements(order)) && (ts == [] || ts[0] == Lit('/'))
    ensures forall m | m in Params(ts) :: m in Elements(Params(ts))
    ensures forall n | n in order :: n in vals
    ensures ReplaceEach(pre + Render(ts), order, Literals(vals, order)) ==
            pre + Fill(ts, Hits(Elements(Params(ts)), map[], order, vals))
  {
    assert forall n | n in order :: n in Elements(order);
    forall n | n in order
      ensures Render(Literals(vals, order)[n]) == vals[n]
    {
      RenderLits(vals[n]);
    }
    LoopHitsAll(pre, ts, order, vals, Literals(vals, order));
  }

  /** Putting the groups back fills the pattern, for all values without ':' and reference and in every order. */
  ghost predicate AlwaysPutBack(words: Words, p: Template, names: seq<string>)
    requires Elements(Params(p)) == Elements(names)
  {
    forall vals: map<string, string>, order: seq<nat> |
      CarriesPlain(names, vals) && Unreferenced(words, vals) && Permutation(order, |names|) ::
      PutBackRight(words, p, names, vals, order)
  }

  ghost predicate Unreferenced(words: Words, vals: map<string, string>) {
    forall n | n in vals :: !HasReference(words, vals[n])
  }

  ghost predicate PutBackRight(
    words: Words, p: Template, names: seq<string>, vals: map<string, string>, order: seq<nat>)
    requires Elements(Params(p)) == Elements(names) == vals.Keys && Permutation(order, |names|)
  {
    assert forall n | n in names :: n in Elements(names);
    assert forall n | n in Params(p) :: n in Elements(Params(p));
    ReplaceGroups(words, Render(p), order, names, Values(names, vals)) == Fill(p, vals)
  }

  lemma {:induction false} PutBackHits(
    words: Words, p: Template, names: seq<string>, vals: map<string, string>, order: seq<nat>)
    requires Delimited(p) && Loose(p) && CarriesPlain(names, vals) && Unreferenced(words, vals)
    requires Elements(Params(p)) == Elements(names) && Permutation(order, |names|) && forall n | n in names :: Name(n)
    ensures (forall n | n in NamesIn(order, names) :: n in vals) && forall m | m in Params(p) :: m in vals
    ensures PutBackRight(words, p, names, vals, order) <==>
            Fill(p, Hits(Elements(Params(p)), map[], NamesIn(order, names), vals)) == Fill(p, vals)
  {
    var loop, env := NamesIn(order, names), Expansions(words, vals);
    LoopNames(names, vals, order);
    assert forall m | m in Params(p) :: m in Elements(Params(p));
    GroupsAsNames(words, Render(p), names, vals, order);
    forall n | n in loop
      ensures Render(env[n]) == vals[n]
    {
      ExpansionIsIdentity(words, vals[n], n);
    }
    NamesHit(p, loop, vals, env);
  }

  lemma {:induction false} NamesHit(p: Template, loop: seq<string>, vals: map<string, string>, env: Env)
    requires Delimited(p) && Loose(p) && ColonFreeMap(vals)
    requires forall n | n in loop :: n in vals && n in env && Name(n) && Render(env[n]) == vals[n]
    ensures forall m | m in Params(p) :: m in Elements(Params(p))
    ensures ReplaceEach(Render(p), loop, env) == Fill(p, Hits(Elements(Params(p)), map[], loop, vals))
  {
    assert "" + Render(p) == Render(p);
    LoopHitsAll("", p, loop, vals, env);
  }

  lemma {:induction false} PrefixFreeUnshadowed(order: seq<string>, m: string)
    requires m in order && forall n | n in order :: !Clash(m, n)
    ensures Unshadowed(order, m)
    decreases order
  {
    assert !Clash(m, order[0]);
    if order[0] != m {
      PrefixFreeUnshadowed(order[1..], m);
    }
  }

  /** On the way back all links are put together right, in every order, if and only if no name begins another. */
  lemma {:induction false} PutBackExactly(words: Words, p: Template, names: seq<string>)
    requires Delimited(p) && Loose(p) && Elements(Params(p)) == Elements(names) && forall n | n in names :: Name(n)
    ensures AlwaysPutBack(words, p, names) <==> PrefixFree(Elements(names))
  {
    assert forall n :: n in names <==> n in Elements(names);
    assert forall n :: n in Params(p) <==> n in Elements(Params(p));
    if PrefixFree(Elements(names)) {
      forall vals: map<string, string>, order: seq<nat> |
        CarriesPlain(names, vals) && Unreferenced(words, vals) && Permutation(order, |names|)
        ensures PutBackRight(words, p, names, vals, order)
      {
        PutBackInOrder(words, p, names, vals, order);
      }
    } else {
      var a, b :| a in names && b in names && a != b && a <= b;
      PutBackFails(words, p, names, a, b);
    }
  }

  lemma {:induction false} PutBackInOrder(
    words: Words, p: Template, names: seq<string>, vals: map<string, string>, order: seq<nat>)
    requires Delimited(p) && Loose(p) && CarriesPlain(names, vals) && Unreferenced(words, vals)
    requires Elements(Params(p)) == Elements(names) && Permutation(order, |names|) && forall n | n in names :: Name(n)
    requires PrefixFree(Elements(names))
    ensures PutBackRight(words, p, names, vals, order)
  {
    var loop := NamesIn(order, names);
    LoopNames(names, vals, order);
    PutBackHits(words, p, names, vals, order);
    assert forall m | m in Params(p) :: m in Elements(Params(p));
    forall m | m in Params(p)
      ensures Hits(Elements(Params(p)), map[], loop, vals)[m] == vals[m]
    {
      PrefixFreeUnshadowed(loop, m);
      UnshadowedHit(loop, vals, m);
    }
    FillSame(p, Hits(Elements(Params(p)), map[], loop, vals), vals);
  }

  lemma {:induction false} XsHarmless(words: Words, names: seq<string>)
    ensures CarriesPlain(names, Xs(Elements(names))) && Unreferenced(words, Xs(Elements(names)))
  {
    assert !HasReference(words, "x");
  }

  lemma {:induction false} PutBackFails(words: Words, p: Template, names: seq<string>, a: string, b: string)
    requires Delimited(p) && Loose(p) && Elements(Params(p)) == Elements(names) && forall n | n in names :: Name(n)
    requires a in names && b in Elements(names) && a != b && a <= b
    ensures !AlwaysPutBack(words, p, names)
  {
    var k: nat :| k < |names| && names[k] == a;
    var order, vals := Foremost(k, |names|), Xs(Elements(names));
    XsHarmless(words, names);
    PutBackHits(words, p, names, vals, order);
    FirstShadows(p, names, order, b);
    assert !PutBackRight(words, p, names, vals, order);
  }

  /** With the shorter name first, the longer one is filled wrongly. */
  lemma {:induction false} FirstShadows(p: Template, names: seq<string>, order: seq<nat>, b: string)
    requires Delimited(p) && Loose(p) && Elements(Params(p)) == Elements(names) && forall n | n in names :: Name(n)
    requires Permutation(order, |names|) && order != [] && b in Elements(names)
    requires names[order[0]] != b && names[order[0]] <= b
    ensures var vals, loop := Xs(Elements(names)), NamesIn(order, names);
      && (forall n | n in loop :: n in vals) && (forall m | m in Params(p) :: m in vals)
      && Fill(p, Hits(Elements(Params(p)), map[], loop, vals)) != Fill(p, vals)
  {
    var vals, loop := Xs(Elements(names)), NamesIn(order, names);
    LoopNames(names, vals, order);
    assert forall m :: m in Params(p) <==> m in Elements(Params(p));
    assert loop[0] == names[order[0]] && !Unshadowed(loop, b);
    ShadowBreaks(p, loop, b);
  }
}
