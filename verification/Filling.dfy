/**
  What a loop of replacements does to a pattern, whatever the values are: a value that has
  been put in place is itself substituted into by the replacements that follow, and nothing
  else goes wrong, because no placeholder reaches across a slash.
 */
module Filling {
  import opened Substitution
  import opened Expansion

  /** The text with every parameter replaced by its value, all at once. */
  function Fill(ts: Template, vals: map<string, string>): string
    requires forall n | n in Params(ts) :: n in vals
  {
    if ts == [] then ""
    else (match ts[0] case Lit(c) => [c] case Param(n) => vals[n]) + Fill(ts[1..], vals)
  }

  /** Every parameter is followed by a slash or ends the pattern. */
  predicate Delimited(ts: Template) {
    forall i | 0 <= i < |ts| && ts[i].Param? :: i + 1 == |ts| || ts[i + 1] == Lit('/')
  }

  lemma {:induction false} DelimitedTail(ts: Template)
    requires ts != [] && Delimited(ts)
    ensures Delimited(ts[1..])
  {
    assert forall i | 0 <= i < |ts[1..]| :: ts[1..][i] == ts[i + 1];
  }

  /** What a path segment can be. */
  predicate Segment(v: string) {
    v != "" && '/' !in v
  }

  ghost predicate Occurs(sub: string, s: string) {
    exists i | 0 <= i <= |s| :: sub <= s[i..]
  }

  /** No placeholder for one of the names occurs in the text. */
  ghost predicate NoPlaceholder(s: string, names: set<string>) {
    forall n | n in names :: !Occurs(":" + n, s)
  }

  /** No placeholder for one of the listed names occurs in the text. */
  ghost predicate Avoids(s: string, order: seq<string>) {
    forall n | n in order :: !Occurs(":" + n, s)
  }

  lemma {:induction false} OccursTail(sub: string, s: string)
    requires s != ""
    ensures Occurs(sub, s) <==> sub <= s || Occurs(sub, s[1..])
  {
    assert s[0..] == s;
    assert forall i | 0 <= i <= |s[1..]| :: s[1..][i..] == s[i + 1..];
    assert forall i | 0 < i <= |s| :: s[i..] == s[1..][i - 1..];
  }

  lemma {:induction false} ColonFree(s: string, n: string)
    requires ':' !in s
    ensures !Occurs(":" + n, s)
    decreases s
  {
    if s != "" {
      OccursTail(":" + n, s);
      assert s[0] != ':' && forall c | c in s[1..] :: c in s;
      ColonFree(s[1..], n);
    }
  }

  // ------------------------------------------------------------------ one replacement in a text

  /** Where a text may stand next to another without a placeholder reaching into it. */
  predicate Separate(y: string) {
    y == "" || y[0] == '/'
  }

  lemma {:induction false} NoReach(x: string, y: string, n: string)
    requires Name(n) && x != "" && !(":" + n <= x) && Separate(y)
    ensures !(":" + n <= x + y)
  {
    var p := ":" + n;
    if |x| < |p| && y != "" {
      assert p[|x|] == n[|x| - 1] && (x + y)[|x|] == '/';
    }
  }

  lemma {:induction false} ReplaceSplits(x: string, y: string, n: string, w: string)
    requires Name(n) && Separate(y)
    ensures ReplaceAll(x + y, ":" + n, w) == ReplaceAll(x, ":" + n, w) + ReplaceAll(y, ":" + n, w)
    decreases |x|
  {
    var p := ":" + n;
    if x == "" {
      assert x + y == y;
    } else if p <= x {
      assert (x + y)[|p|..] == x[|p|..] + y;
      ReplaceSplits(x[|p|..], y, n, w);
    } else {
      NoReach(x, y, n);
      assert (x + y)[1..] == x[1..] + y;
      ReplaceSplits(x[1..], y, n, w);
    }
  }

  lemma {:induction false} NothingReplaced(x: string, sub: string, w: string)
    requires sub != "" && !Occurs(sub, x)
    ensures ReplaceAll(x, sub, w) == x
    decreases x
  {
    if x != "" {
      OccursTail(sub, x);
      NothingReplaced(x[1..], sub, w);
    }
  }

  /** Without an occurrence the whole loop does nothing. */
  lemma {:induction false} Untouched(x: string, order: seq<string>, env: Env)
    requires (forall n | n in order :: n in env) && Avoids(x, order)
    ensures ReplaceEach(x, order, env) == x
    decreases order
  {
    if order != [] {
      NothingReplaced(x, ":" + order[0], Render(env[order[0]]));
      Untouched(x, order[1..], env);
    }
  }

  // ------------------------------------------------------------------ one replacement in a pattern

  /** The pattern when the parameters in `cur` have been replaced. */
  function Show(ts: Template, cur: map<string, string>): string {
    if ts == [] then ""
    else ShowToken(ts[0], cur) + Show(ts[1..], cur)
  }

  function ShowToken(t: Token, cur: map<string, string>): string {
    match t
    case Lit(c) => [c]
    case Param(n) => if n in cur then cur[n] else ":" + n
  }

  /** What a replacement of `n` makes of the values in place. */
  function Stepped(cur: map<string, string>, n: string, w: string): map<string, string> {
    map m | m in cur.Keys + {n} :: if m in cur then ReplaceAll(cur[m], ":" + n, w) else w
  }

  lemma {:induction false} ShowStep(ts: Template, cur: map<string, string>, names: set<string>, n: string, w: string)
    requires Delimited(ts) && Plain(ts, names) && PrefixFree(names) && n in names && Name(n)
    ensures ReplaceAll(Show(ts, cur), ":" + n, w) == Show(ts, Stepped(cur, n, w))
    decreases ts
  {
    if ts != [] {
      DelimitedTail(ts);
      ShowStep(ts[1..], cur, names, n, w);
      var rest := Show(ts[1..], cur);
      match ts[0]
      case Lit(c) =>
        assert c != ':' && ([c] + rest)[0] == c && ([c] + rest)[1..] == rest;
      case Param(m) =>
        if m in cur {
          assert ts[1..] != [] ==> ts[1..][0] == ts[1] == Lit('/') && rest[0] == '/';
          ReplaceSplits(cur[m], rest, n, w);
        } else if m == n {
          assert (":" + n + rest)[|":" + n|..] == rest;
        } else {
          NoMatchInside(m, n, rest, w);
        }
    }
  }

  // ------------------------------------------------------------------ the whole loop

  /** The names that are replaced after `n` first is. */
  function Following(order: seq<string>, n: string): (later: seq<string>)
    requires n in order
    ensures forall m | m in later :: m in order
  {
    if order[0] == n then order[1..] else Following(order[1..], n)
  }

  /** What the value of `n` has become when the loop is over. */
  function Settle(order: seq<string>, env: Env, n: string): string
    requires n in order && forall m | m in order :: m in env
  {
    ReplaceEach(Render(env[n]), Following(order, n), env)
  }

  function Settled(order: seq<string>, env: Env): map<string, string>
    requires forall m | m in order :: m in env
  {
    map n | n in Elements(order) :: Settle(order, env, n)
  }

  /** The same, when the values in `cur` are in place already. */
  function Finished(cur: map<string, string>, order: seq<string>, env: Env): map<string, string>
    requires forall m | m in order :: m in env
  {
    map n | n in cur.Keys + Elements(order) :: FinishedAt(cur, order, env, n)
  }

  function FinishedAt(cur: map<string, string>, order: seq<string>, env: Env, n: string): string
    requires (n in cur || n in order) && forall m | m in order :: m in env
  {
    if n in cur then ReplaceEach(cur[n], order, env) else Settle(order, env, n)
  }

  lemma {:induction false} FinishedStep(
    cur: map<string, string>, order: seq<string>, env: Env, next: map<string, string>)
    requires order != [] && forall m | m in order :: m in env
    requires next == Stepped(cur, order[0], Render(env[order[0]]))
    ensures Finished(next, order[1..], env) == Finished(cur, order, env)
  {
    assert order == [order[0]] + order[1..];
    assert next.Keys + Elements(order[1..]) == cur.Keys + Elements(order);
    forall n | n in cur.Keys + Elements(order)
      ensures FinishedAt(next, order[1..], env, n) == FinishedAt(cur, order, env, n)
    {
      FinishedAtStep(cur, order, env, next, n);
    }
  }

  lemma {:induction false} FinishedAtStep(
    cur: map<string, string>, order: seq<string>, env: Env, next: map<string, string>, n: string)
    requires order != [] && (forall m | m in order :: m in env) && (n in cur || n in order)
    requires next == Stepped(cur, order[0], Render(env[order[0]]))
    ensures n in next || n in order[1..]
    ensures FinishedAt(next, order[1..], env, n) == FinishedAt(cur, order, env, n)
  {
    assert n in order ==> n == order[0] || n in order[1..];
  }

  lemma {:induction false} LoopShows(
    ts: Template, cur: map<string, string>, order: seq<string>, env: Env, names: set<string>)
    requires Delimited(ts) && Plain(ts, names) && PrefixFree(names)
    requires forall n | n in order :: n in env && n in names && Name(n)
    ensures ReplaceEach(Show(ts, cur), order, env) == Show(ts, Finished(cur, order, env))
    decreases order
  {
    if order == [] {
      assert Finished(cur, order, env) == cur;
    } else {
      var n, w := order[0], Render(env[order[0]]);
      ShowStep(ts, cur, names, n, w);
      FinishedStep(cur, order, env, Stepped(cur, n, w));
      LoopShows(ts, Stepped(cur, n, w), order[1..], env, names);
    }
  }

  lemma {:induction false} ShowIsRender(ts: Template)
    ensures Show(ts, map[]) == Render(ts)
    decreases ts
  {
    if ts != [] {
      ShowIsRender(ts[1..]);
    }
  }

  lemma {:induction false} ShowIsFill(ts: Template, cur: map<string, string>)
    requires forall n | n in Params(ts) :: n in cur
    ensures Show(ts, cur) == Fill(ts, cur)
    decreases ts
  {
    if ts != [] {
      assert forall n | n in Params(ts[1..]) :: n in Params(ts);
      ShowIsFill(ts[1..], cur);
      assert ts[0].Param? ==> Params(ts)[0] == ts[0].name;
    }
  }

  /** A text in front, in which no placeholder occurs, stays as it is. */
  lemma {:induction false} LoopBehind(pre: string, text: string, order: seq<string>, env: Env)
    requires pre == "" || Separate(text)
    requires forall n | n in order :: n in env && Name(n) && !Occurs(":" + n, pre)
    ensures ReplaceEach(pre + text, order, env) == pre + ReplaceEach(text, order, env)
    decreases order
  {
    if order == [] || pre == "" {
      assert pre == "" ==> pre + text == text && pre + ReplaceEach(text, order, env) == ReplaceEach(text, order, env);
    } else {
      var n, w := order[0], Render(env[order[0]]);
      ReplaceSplits(pre, text, n, w);
      NothingReplaced(pre, ":" + n, w);
      LoopBehind(pre, ReplaceAll(text, ":" + n, w), order[1..], env);
    }
  }

  /**
    For every value: the loop fills the pattern, all at once, with what the values settle to.
   */
  lemma {:induction false} LoopFills(pre: string, ts: Template, order: seq<string>, env: Env, names: set<string>)
    requires Delimited(ts) && Plain(ts, names) && PrefixFree(names)
    requires forall n | n in order :: n in env && n in names && Name(n)
    requires forall n | n in Params(ts) :: n in order
    requires NoPlaceholder(pre, names) && (ts == [] || pre == "" || ts[0] == Lit('/'))
    ensures ReplaceEach(pre + Render(ts), order, env) == pre + Fill(ts, Settled(order, env))
  {
    LoopBehind(pre, Render(ts), order, env);
    ShowIsRender(ts);
    LoopShows(ts, map[], order, env, names);
    assert Finished(map[], order, env) == Settled(order, env);
    ShowIsFill(ts, Settled(order, env));
  }

  // ------------------------------------------------------------------ filling is injective

  /** The text before the first slash. */
  function Head(s: string): string {
    if s == "" || s[0] == '/' then "" else [s[0]] + Head(s[1..])
  }

  lemma {:induction false} HeadOf(a: string, x: string)
    requires '/' !in a && Separate(x)
    ensures Head(a + x) == a
    decreases a
  {
    if a == "" {
      assert a + x == x;
    } else {
      assert (a + x)[1..] == a[1..] + x;
      HeadOf(a[1..], x);
    }
  }

  lemma {:induction false} SameHead(a: string, x: string, b: string, y: string)
    requires '/' !in a && '/' !in b && Separate(x) && Separate(y) && a + x == b + y
    ensures a == b && x == y
  {
    HeadOf(a, x);
    HeadOf(b, y);
    assert (a + x)[|a|..] == x && (b + y)[|a|..] == y;
  }

  lemma {:induction false} ParamsCons(ts: Template)
    requires ts != []
    ensures Params(ts) == (if ts[0].Param? then [ts[0].name] else []) + Params(ts[1..])
    ensures forall n | n in Params(ts[1..]) :: n in Params(ts)
    ensures forall n | n in Params(ts) :: n in Params(ts[1..]) || ts[0] == Param(n)
  {
  }

  lemma {:induction false} FilledSeparate(ts: Template, vals: map<string, string>)
    requires (forall n | n in Params(ts) :: n in vals) && (ts == [] || ts[0] == Lit('/'))
    ensures Separate(Fill(ts, vals))
  {
  }

  /** Values without a slash can be told from the filled pattern. */
  lemma {:induction false} FillInjective(ts: Template, a: map<string, string>, b: map<string, string>)
    requires Delimited(ts) && forall n | n in Params(ts) :: n in a && n in b && '/' !in a[n] && '/' !in b[n]
    requires Fill(ts, a) == Fill(ts, b)
    ensures forall n | n in Params(ts) :: a[n] == b[n]
    decreases ts
  {
    if ts != [] {
      DelimitedTail(ts);
      ParamsCons(ts);
      var x, y := Fill(ts[1..], a), Fill(ts[1..], b);
      match ts[0] {
        case Lit(c) =>
          assert Fill(ts, a)[1..] == x && Fill(ts, b)[1..] == y;
        case Param(n) =>
          FilledSeparate(ts[1..], a);
          FilledSeparate(ts[1..], b);
          SameHead(a[n], x, b[n], y);
      }
      FillInjective(ts[1..], a, b);
    }
  }

  // ------------------------------------------------------------------ what a value can become

  lemma {:induction false} ReplaceSegment(v: string, sub: string, w: string)
    requires sub != "" && '/' !in v && '/' !in w
    ensures '/' !in ReplaceAll(v, sub, w) && (v != "" && w != "" ==> ReplaceAll(v, sub, w) != "")
    decreases |v|
  {
    if v != "" {
      ReplaceSegment(v[if sub <= v then |sub| else 1..], sub, w);
    }
  }

  lemma {:induction false} ReplaceEachSegment(v: string, order: seq<string>, env: Env)
    requires '/' !in v && forall n | n in order :: n in env && '/' !in Render(env[n])
    ensures '/' !in ReplaceEach(v, order, env)
    ensures v != "" && (forall n | n in order :: Render(env[n]) != "") ==> ReplaceEach(v, order, env) != ""
    decreases order
  {
    if order != [] {
      var n := order[0];
      ReplaceSegment(v, ":" + n, Render(env[n]));
      ReplaceEachSegment(ReplaceAll(v, ":" + n, Render(env[n])), order[1..], env);
    }
  }

  lemma {:induction false} ReplaceShrinks(x: string, sub: string, w: string)
    requires |w| < |sub|
    ensures |ReplaceAll(x, sub, w)| <= |x|
    ensures Occurs(sub, x) ==> |ReplaceAll(x, sub, w)| < |x|
    decreases |x|
  {
    if x != "" {
      OccursTail(sub, x);
      ReplaceShrinks(x[if sub <= x then |sub| else 1..], sub, w);
    }
  }

  /** With values of one character, every placeholder that occurs makes the text shorter. */
  lemma {:induction false} LoopShrinks(x: string, order: seq<string>, env: Env)
    requires forall n | n in order :: n in env && n != "" && |Render(env[n])| == 1
    ensures |ReplaceEach(x, order, env)| <= |x|
    ensures (exists n :: n in order && Occurs(":" + n, x)) ==> |ReplaceEach(x, order, env)| < |x|
    decreases order
  {
    if order != [] {
      var n, w := order[0], Render(env[order[0]]);
      ReplaceShrinks(x, ":" + n, w);
      if !Occurs(":" + n, x) {
        NothingReplaced(x, ":" + n, w);
      }
      assert forall m | m in order[1..] :: m in order;
      LoopShrinks(ReplaceAll(x, ":" + n, w), order[1..], env);
    }
  }

  lemma {:induction false} ReplaceDollars(x: string, n: string, w: string)
    requires Name(n) && Dollars(w) == 0
    ensures Dollars(ReplaceAll(x, ":" + n, w)) == Dollars(x)
    decreases |x|
  {
    var p := ":" + n;
    if x != "" && p <= x {
      NoDollars(p);
      DollarsConcat(p, x[|p|..]);
      assert x == p + x[|p|..];
      ReplaceDollars(x[|p|..], n, w);
      DollarsConcat(w, ReplaceAll(x[|p|..], p, w));
    } else if x != "" {
      ReplaceDollars(x[1..], n, w);
      assert ([x[0]] + ReplaceAll(x[1..], p, w))[1..] == ReplaceAll(x[1..], p, w);
    }
  }

  lemma {:induction false} LoopDollars(x: string, order: seq<string>, env: Env)
    requires forall n | n in order :: n in env && Name(n) && Dollars(Render(env[n])) == 0
    ensures Dollars(ReplaceEach(x, order, env)) == Dollars(x)
    decreases order
  {
    if order != [] {
      ReplaceDollars(x, order[0], Render(env[order[0]]));
      LoopDollars(ReplaceAll(x, ":" + order[0], Render(env[order[0]])), order[1..], env);
    }
  }

  /**
    With "x" for every name, a text keeps its dollar signs and never gets longer, and stays
    as long as it is only if no placeholder occurs in it.
   */
  lemma {:induction false} LoopWithX(v: string, order: seq<string>, env: Env)
    requires forall n | n in order :: n in env && Name(n) && Render(env[n]) == "x"
    ensures var w := ReplaceEach(v, order, env);
      && Dollars(w) == Dollars(v) && |w| <= |v|
      && (|w| == |v| ==> w == v && Avoids(v, order))
  {
    NoDollars("x");
    LoopDollars(v, order, env);
    LoopShrinks(v, order, env);
    if Avoids(v, order) {
      Untouched(v, order, env);
    }
  }
}
