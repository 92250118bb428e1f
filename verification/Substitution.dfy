/**
  Placeholder substitution as the gateway does it: one textual replacement of ":name" after
  another, with `strings.Replace` on the way to the backend (dispatcher/pathbased.go) and
  with `Regexp.ReplaceAllString` on the way back (proxy/hostrewriter.go).

  A template is read as a sequence of tokens. The theorem is that the replacements, done
  one after the other in any order, amount to one simultaneous substitution.
 */
module Substitution {

  datatype Token = Lit(c: char) | Param(name: string)
  type Template = seq<Token>

  /** strings.Replace(s, old, new, -1): leftmost, non-overlapping. */
  function ReplaceAll(s: string, sub: string, with: string): string
    requires sub != ""
  {
    if s == "" then ""
    else if sub <= s then with + ReplaceAll(s[|sub|..], sub, with)
    else [s[0]] + ReplaceAll(s[1..], sub, with)
  }

  function Render(ts: Template): string {
    if ts == [] then ""
    else (match ts[0] case Lit(c) => [c] case Param(n) => ":" + n) + Render(ts[1..])
  }

  function Lits(s: string): Template {
    seq(|s|, i requires 0 <= i < |s| => Lit(s[i]))
  }

  /** Characters of a parameter name: [a-zA-Z0-9]. */
  predicate Alnum(c: char) {
    'a' <= c <= 'z' || 'A' <= c <= 'Z' || '0' <= c <= '9'
  }

  const LOWER := "abcdefghijklmnopqrstuvwxyz"
  const UPPER := "ABCDEFGHIJKLMNOPQRSTUVWXYZ"
  const DIGITS := "0123456789"

  lemma {:induction false} AlnumExact(c: char)
    ensures Alnum(c) <==> c in LOWER || c in UPPER || c in DIGITS
  {
    LowerExact(c);
    UpperExact(c);
    DigitExact(c);
  }

  lemma {:induction false} LowerExact(c: char)
    ensures c in LOWER <==> 'a' <= c <= 'z'
  {
    if 'a' <= c <= 'z' {
      assert c == LOWER[c as int - 'a' as int];
    }
  }

  lemma {:induction false} UpperExact(c: char)
    ensures c in UPPER <==> 'A' <= c <= 'Z'
  {
    if 'A' <= c <= 'Z' {
      assert c == UPPER[c as int - 'A' as int];
    }
  }

  lemma {:induction false} DigitExact(c: char)
    ensures c in DIGITS <==> '0' <= c <= '9'
  {
    if '0' <= c <= '9' {
      assert c == DIGITS[c as int - '0' as int];
    }
  }

  predicate Name(n: string) {
    n != "" && forall i | 0 <= i < |n| :: Alnum(n[i])
  }

  /** The parameters of a template, in order. */
  function Params(ts: Template): seq<string> {
    if ts == [] then []
    else (match ts[0] case Lit(_) => [] case Param(n) => [n]) + Params(ts[1..])
  }

  /** What each parameter stands for; a value may itself be a template. */
  type Env = map<string, Template>

  /** The template with the parameters in `done` bound, all at once. */
  function Bind(ts: Template, env: Env, done: set<string>): Template {
    if ts == [] then []
    else BindToken(ts[0], env, done) + Bind(ts[1..], env, done)
  }

  function BindToken(t: Token, env: Env, done: set<string>): Template {
    if t.Param? && t.name in done && t.name in env then env[t.name] else [t]
  }

  /** The loop of replacements, one name after the other. */
  function ReplaceEach(text: string, order: seq<string>, env: Env): string
    requires forall n | n in order :: n in env
    decreases order
  {
    if order == [] then text
    else ReplaceEach(ReplaceAll(text, ":" + order[0], Render(env[order[0]])), order[1..], env)
  }

  // ------------------------------------------------------------------ one replacement

  predicate Clash(m: string, n: string) {
    m != n && (m <= n || n <= m)
  }

  /** Searching the text of `ts` for ":n" finds exactly its parameters `n`. */
  ghost predicate Safe(ts: Template, n: string) {
    ts == [] || (SafeHead(ts, n) && Safe(ts[1..], n))
  }

  ghost predicate SafeHead(ts: Template, n: string)
    requires ts != []
  {
    match ts[0]
    case Lit(_) => !(":" + n <= Render(ts))
    case Param(m) => Name(m) && !Clash(m, n)
  }

  lemma {:induction false} ReplaceBinds(ts: Template, n: string, env: Env)
    requires Name(n) && Safe(ts, n) && n in env
    ensures ReplaceAll(Render(ts), ":" + n, Render(env[n])) == Render(Bind(ts, env, {n}))
    decreases ts
  {
    if ts != [] {
      ReplaceBinds(ts[1..], n, env);
      ReplaceHead(ts, n, env);
      RenderConcat(BindToken(ts[0], env, {n}), Bind(ts[1..], env, {n}));
    }
  }

  /** The replacement deals with the first token and then with the rest. */
  lemma {:induction false} ReplaceHead(ts: Template, n: string, env: Env)
    requires Name(n) && ts != [] && SafeHead(ts, n) && n in env
    ensures ReplaceAll(Render(ts), ":" + n, Render(env[n])) ==
            Render(BindToken(ts[0], env, {n})) + ReplaceAll(Render(ts[1..]), ":" + n, Render(env[n]))
  {
    var rest := Render(ts[1..]);
    match ts[0]
    case Lit(c) =>
      assert ([c] + rest)[1..] == rest;
      assert Render([ts[0]]) == [c];
    case Param(m) =>
      if m == n {
        assert (":" + n + rest)[|n| + 1..] == rest;
      } else {
        NoMatchInside(m, n, rest, Render(env[n]));
        assert Render([ts[0]]) == ":" + m;
      }
  }

  /** Another parameter's placeholder is passed over. */
  lemma {:induction false} NoMatchInside(m: string, n: string, rest: string, v: string)
    requires Name(m) && Name(n) && m != n && !Clash(m, n)
    ensures ReplaceAll(":" + m + rest, ":" + n, v) == ":" + m + ReplaceAll(rest, ":" + n, v)
  {
    var s := ":" + m + rest;
    if ":" + n <= s {
      assert forall i | 0 <= i < |n| && i < |m| :: n[i] == s[i + 1] == m[i];
      assert false;
    }
    assert s[1..] == m + rest;
    SkipPlain(m, rest, n, v);
  }

  lemma {:induction false} SkipPlain(m: string, rest: string, n: string, v: string)
    requires forall i | 0 <= i < |m| :: m[i] != ':'
    ensures ReplaceAll(m + rest, ":" + n, v) == m + ReplaceAll(rest, ":" + n, v)
    decreases m
  {
    if m == "" {
      assert m + rest == rest;
    } else {
      assert (m + rest)[1..] == m[1..] + rest;
      assert (m + rest)[0] != ':';
      SkipPlain(m[1..], rest, n, v);
    }
  }

  lemma {:induction false} RenderConcat(a: Template, b: Template)
    ensures Render(a + b) == Render(a) + Render(b)
    decreases a
  {
    if a == [] {
      assert a + b == b;
    } else {
      assert (a + b)[1..] == a[1..] + b;
      RenderConcat(a[1..], b);
    }
  }

  lemma {:induction false} BindConcat(a: Template, b: Template, env: Env, done: set<string>)
    ensures Bind(a + b, env, done) == Bind(a, env, done) + Bind(b, env, done)
    decreases a
  {
    if a == [] {
      assert a + b == b;
    } else {
      assert (a + b)[1..] == a[1..] + b;
      BindConcat(a[1..], b, env, done);
    }
  }

  // ------------------------------------------------------------------ one after the other

  /** Whatever has been bound, the placeholders still to be replaced are found safely. */
  ghost predicate Stable(ts: Template, env: Env) {
    forall done: set<string>, n | n in env :: Safe(Bind(ts, env, done), n)
  }

  /** A value mentions no parameter but, at most, its own. */
  ghost predicate SelfContained(env: Env) {
    forall n, i | n in env && 0 <= i < |env[n]| :: env[n][i].Param? ==> env[n][i].name == n
  }

  predicate Literal(ts: Template) {
    forall i | 0 <= i < |ts| :: ts[i].Lit?
  }

  /** A name that is replaced twice has a literal value, so that the second time changes nothing. */
  ghost predicate Harmless(order: seq<string>, env: Env, done: set<string>)
    requires forall n | n in order :: n in env
  {
    && (forall i | 0 <= i < |order| && order[i] in done :: Literal(env[order[i]]))
    && (forall i, j | 0 <= i < j < |order| && order[i] == order[j] :: Literal(env[order[i]]))
  }

  function Elements(order: seq<string>): set<string> {
    set n | n in order
  }

  lemma {:induction false} BindMore(ts: Template, env: Env, done: set<string>, n: string)
    requires SelfContained(env) && n in env && (n in done ==> Literal(env[n]))
    ensures Bind(Bind(ts, env, done), env, {n}) == Bind(ts, env, done + {n})
    decreases ts
  {
    if ts != [] {
      var head := BindToken(ts[0], env, done);
      BindConcat(head, Bind(ts[1..], env, done), env, {n});
      BindMore(ts[1..], env, done, n);
      if ts[0].Param? && ts[0].name in done && ts[0].name in env {
        Unbound(head, env, {n});
      } else {
        assert Bind(head, env, {n}) == BindToken(ts[0], env, {n}) + [];
      }
    }
  }

  lemma {:induction false} Unbound(ts: Template, env: Env, done: set<string>)
    requires forall i | 0 <= i < |ts| :: ts[i].Param? ==> ts[i].name !in done
    ensures Bind(ts, env, done) == ts
    decreases ts
  {
    if ts != [] {
      Unbound(ts[1..], env, done);
    }
  }

  /** The loop of replacements is one simultaneous substitution. */
  lemma {:induction false} SequentialIsSimultaneous(ts: Template, env: Env, done: set<string>, order: seq<string>)
    requires Stable(ts, env) && SelfContained(env)
    requires (forall n | n in order :: n in env && Name(n)) && Harmless(order, env, done)
    ensures ReplaceEach(Render(Bind(ts, env, done)), order, env) == Render(Bind(ts, env, done + Elements(order)))
    decreases order
  {
    if order == [] {
      assert done + Elements(order) == done;
    } else {
      var n, rest := order[0], order[1..];
      ReplaceBinds(Bind(ts, env, done), n, env);
      BindMore(ts, env, done, n);
      HarmlessTail(order, env, done);
      SequentialIsSimultaneous(ts, env, done + {n}, rest);
    }
  }

  lemma {:induction false} HarmlessTail(order: seq<string>, env: Env, done: set<string>)
    requires order != [] && (forall n | n in order :: n in env) && Harmless(order, env, done)
    ensures Harmless(order[1..], env, done + {order[0]})
    ensures done + {order[0]} + Elements(order[1..]) == done + Elements(order)
  {
    var n, rest := order[0], order[1..];
    assert forall i | 0 <= i < |rest| :: rest[i] == order[i + 1];
    assert Elements(order) == {n} + Elements(rest) by {
      assert order == [n] + rest;
    }
    forall i | 0 <= i < |rest| && rest[i] in done + {n}
      ensures Literal(env[rest[i]])
    {
      assert rest[i] == order[i + 1];
    }
  }

  /** The order of the replacements does not matter. */
  lemma {:induction false} OrderIrrelevant(ts: Template, env: Env, order: seq<string>, order': seq<string>)
    requires Stable(ts, env) && SelfContained(env) && Elements(order) == Elements(order')
    requires forall n | n in Elements(order) :: n in env && Name(n) && Literal(env[n])
    ensures (forall n | n in order :: n in env) && (forall n | n in order' :: n in env)
    ensures ReplaceEach(Render(ts), order, env) == ReplaceEach(Render(ts), order', env)
  {
    assert forall n | n in order' :: n in Elements(order');
    Unbound(ts, env, {});
    SequentialIsSimultaneous(ts, env, {}, order);
    SequentialIsSimultaneous(ts, env, {}, order');
  }

  // ------------------------------------------------------------------ when it is safe

  /** Names of which none begins another. */
  ghost predicate PrefixFree(names: set<string>) {
    forall m, n | m in names && n in names :: !Clash(m, n)
  }

  /** The template's literals are free of ':' and its parameters are among `names`. */
  ghost predicate Plain(ts: Template, names: set<string>) {
    forall i | 0 <= i < |ts| :: match ts[i] case Lit(c) => c != ':' case Param(m) => Name(m) && m in names
  }

  lemma {:induction false} PlainIsSafe(ts: Template, names: set<string>, n: string)
    requires Plain(ts, names) && PrefixFree(names) && n in names
    ensures Safe(ts, n)
    decreases ts
  {
    if ts != [] {
      PlainIsSafe(ts[1..], names, n);
      assert ts[0].Lit? ==> Render(ts)[0] == ts[0].c;
    }
  }

  lemma {:induction false} BindPlain(ts: Template, env: Env, done: set<string>, names: set<string>)
    requires Plain(ts, names) && forall n | n in env :: Plain(env[n], names)
    ensures Plain(Bind(ts, env, done), names)
    decreases ts
  {
    if ts != [] {
      BindPlain(ts[1..], env, done, names);
    }
  }

  /** Any template and values without ':' and with prefix-free names. */
  lemma {:induction false} ColonFreeStable(ts: Template, env: Env, names: set<string>)
    requires Plain(ts, names) && PrefixFree(names) && env.Keys <= names
    requires forall n | n in env :: Plain(env[n], names)
    ensures Stable(ts, env)
  {
    forall done: set<string>, n | n in env
      ensures Safe(Bind(ts, env, done), n)
    {
      BindPlain(ts, env, done, names);
      PlainIsSafe(Bind(ts, env, done), names, n);
    }
  }
}
