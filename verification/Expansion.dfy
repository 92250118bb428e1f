/**
  The replacement text of `Regexp.ReplaceAllString` is itself a template in which `$` may
  refer to a group. `mapping.repl` passes request data there (proxy/hostrewriter.go:45), so a
  value with such a reference does not come back as it went out.
 */
module Expansion {
  import opened Substitution

  predicate AsciiWord(c: char) {
    Alnum(c) || c == '_'
  }

  /**
    The characters of a reference's name: the ASCII letters, digits and the underscore, and
    whichever letters and digits beyond ASCII the library takes for such.
   */
  type Words = w: char -> bool | IsWords(w) witness AsciiWord

  ghost predicate IsWords(w: char -> bool) {
    (forall c | AsciiWord(c) :: w(c)) && !w('$') && !w('{') && !w('}')
  }

  lemma {:induction false} NameCharacters(words: Words, c: char)
    ensures c in LOWER || c in UPPER || c in DIGITS || c == '_' ==> words(c)
    ensures c == '$' || c == '{' || c == '}' ==> !words(c)
  {
    AlnumExact(c);
    assert AsciiWord(c) ==> words(c);
  }

  function WordRun(words: Words, s: string): (n: nat)
    ensures n <= |s|
  {
    if s == "" || !words(s[0]) then 0 else 1 + WordRun(words, s[1..])
  }

  /** The length of the reference that `s` is right after a `$`: `$`, `name` or `{name}`; 0 if it is none. */
  function Reference(words: Words, s: string): (n: nat)
    ensures n <= |s|
  {
    if s == "" then 0
    else if s[0] == '$' then 1
    else if s[0] == '{' then
      var n := WordRun(words, s[1..]);
      if n > 0 && n + 1 < |s| && s[n + 1] == '}' then n + 2 else 0
    else WordRun(words, s)
  }

  /** Some `$` of the value begins a reference. */
  predicate HasReference(words: Words, v: string) {
    exists i | 0 <= i < |v| :: v[i] == '$' && Reference(words, v[i + 1..]) > 0
  }

  /** The reference is to group 0, the whole match. */
  predicate ToWhole(ref: string) {
    ref == "0" || ref == "{0}"
  }

  /**
    The value `v` as a template, where the expression is ":n" and has no groups: `$$` is a
    dollar sign, group 0 is the placeholder itself, and any other reference is empty.
   */
  function Expand(words: Words, v: string, n: string): Template {
    if v == "" then []
    else if v[0] != '$' then [Lit(v[0])] + Expand(words, v[1..], n)
    else
      var r := Reference(words, v[1..]);
      if r == 0 then [Lit('$')] + Expand(words, v[1..], n)
      else if v[1] == '$' then [Lit('$')] + Expand(words, v[2..], n)
      else if ToWhole(v[1..r + 1]) then [Param(n)] + Expand(words, v[r + 1..], n)
      else Expand(words, v[r + 1..], n)
  }

  // ------------------------------------------------------------------ the forms of a reference

  /**
    The first `k` characters are a reference: a dollar sign; the longest name that begins here;
    or a name in braces.
   */
  ghost predicate Form(words: Words, s: string, k: nat) {
    && 0 < k <= |s|
    && (|| (k == 1 && s[0] == '$')
        || ((forall i | 0 <= i < k :: words(s[i])) && (k < |s| ==> !words(s[k])))
        || (k >= 3 && s[0] == '{' && s[k - 1] == '}' && forall i | 1 <= i < k - 1 :: words(s[i])))
  }

  lemma {:induction false} RunMaximal(words: Words, s: string)
    ensures forall i | 0 <= i < WordRun(words, s) :: words(s[i])
    ensures WordRun(words, s) < |s| ==> !words(s[WordRun(words, s)])
    decreases s
  {
    if s != "" && words(s[0]) {
      RunMaximal(words, s[1..]);
    }
  }

  lemma {:induction false} RunIs(words: Words, s: string, k: nat)
    requires k <= |s| && (forall i | 0 <= i < k :: words(s[i])) && (k < |s| ==> !words(s[k]))
    ensures WordRun(words, s) == k
    decreases s
  {
    if k > 0 {
      RunIs(words, s[1..], k - 1);
    }
  }

  /** What is taken for a reference is one, and any reference is taken for one. */
  lemma {:induction false} ReferenceExact(words: Words, s: string, k: nat)
    requires k > 0
    ensures Reference(words, s) == k <==> Form(words, s, k)
  {
    RunMaximal(words, s);
    if s != "" {
      RunMaximal(words, s[1..]);
    }
    if Form(words, s, k) {
      if k == 1 && s[0] == '$' {
      } else if s[0] == '{' {
        assert forall i | 0 <= i < k - 2 :: s[1..][i] == s[i + 1];
        RunIs(words, s[1..], k - 2);
      } else {
        RunIs(words, s, k);
      }
    }
  }

  /**
    What a `$` with its reference becomes: `$$` a dollar sign, a reference to group 0 the
    placeholder itself, and any other nothing. Without a reference it stays.
   */
  lemma {:induction false} ExpandForms(words: Words, ref: string, rest: string, n: string)
    ensures Form(words, ref + rest, |ref|) ==>
      Expand(words, "$" + ref + rest, n) ==
        (if ref == "$" then [Lit('$')] else if ref == "0" || ref == "{0}" then [Param(n)] else [])
        + Expand(words, rest, n)
    ensures (forall k: nat :: !Form(words, rest, k)) ==>
      Expand(words, "$" + rest, n) == [Lit('$')] + Expand(words, rest, n)
  {
    var v := "$" + ref + rest;
    assert v[1..] == ref + rest && v[|ref| + 1..] == rest && v[1..|ref| + 1] == ref;
    if Form(words, ref + rest, |ref|) {
      ReferenceExact(words, ref + rest, |ref|);
    }
    assert ("$" + rest)[1..] == rest;
    if forall k: nat :: !Form(words, rest, k) {
      var r := Reference(words, rest);
      if r > 0 {
        ReferenceExact(words, rest, r);
      }
    }
  }

  lemma {:induction false} ExpandPlainly(words: Words, c: char, rest: string, n: string)
    ensures Expand(words, "", n) == []
    ensures c != '$' ==> Expand(words, [c] + rest, n) == [Lit(c)] + Expand(words, rest, n)
  {
    assert ([c] + rest)[1..] == rest;
  }

  ghost predicate FormAt(words: Words, v: string, i: nat, k: nat) {
    i < |v| && v[i] == '$' && Form(words, v[i + 1..], k)
  }

  /** A value has a reference if and only if one of its dollar signs is followed by one. */
  lemma {:induction false} HasReferenceExact(words: Words, v: string)
    ensures HasReference(words, v) <==>
      exists i, k :: FormAt(words, v, i, k)
  {
    if HasReference(words, v) {
      var i :| 0 <= i < |v| && v[i] == '$' && Reference(words, v[i + 1..]) > 0;
      ReferenceExact(words, v[i + 1..], Reference(words, v[i + 1..]));
      assert FormAt(words, v, i, Reference(words, v[i + 1..]));
    }
    if i, k :| FormAt(words, v, i, k) {
      ReferenceExact(words, v[i + 1..], k);
    }
  }

  /** How much of the value the first step of its expansion takes. */
  function Taken(words: Words, v: string): (k: nat)
    requires v != ""
    ensures 0 < k <= |v|
  {
    if v[0] != '$' || Reference(words, v[1..]) == 0 then 1 else if v[1] == '$' then 2 else Reference(words, v[1..]) + 1
  }

  function Dollars(s: string): nat {
    if s == "" then 0 else (if s[0] == '$' then 1 else 0) + Dollars(s[1..])
  }

  lemma {:induction false} DollarsConcat(a: string, b: string)
    ensures Dollars(a + b) == Dollars(a) + Dollars(b)
    decreases a
  {
    if a == "" {
      assert a + b == b;
    } else {
      assert (a + b)[1..] == a[1..] + b;
      DollarsConcat(a[1..], b);
    }
  }

  lemma {:induction false} NoDollars(s: string)
    requires forall i | 0 <= i < |s| :: s[i] != '$'
    ensures Dollars(s) == 0
    decreases s
  {
    if s != "" {
      NoDollars(s[1..]);
    }
  }

  lemma {:induction false} DollarsOfPlaceholder(n: string, rest: Template)
    requires Name(n)
    ensures Dollars(Render([Param(n)] + rest)) == Dollars(Render(rest))
  {
    NoDollars(":" + n);
    assert ([Param(n)] + rest)[1..] == rest;
    DollarsConcat(":" + n, Render(rest));
  }

  /** Without a reference the value is taken literally. */
  lemma {:induction false} NoReferenceLiteral(words: Words, v: string, n: string)
    requires !HasReference(words, v)
    ensures Expand(words, v, n) == Lits(v)
    decreases v
  {
    if v != "" {
      var w := v[1..];
      assert v[0..][1..] == w;
      assert forall i | 0 <= i < |w| :: w[i] == v[i + 1] && w[i + 1..] == v[i + 2..];
      NoReferenceLiteral(words, w, n);
      assert Lits(v) == [Lit(v[0])] + Lits(w);
    }
  }

  /** Expansion never adds a dollar sign, and a reference always costs one. */
  lemma {:induction false} ReferenceCosts(words: Words, v: string, n: string)
    requires Name(n)
    ensures Dollars(Render(Expand(words, v, n))) <= Dollars(v)
    ensures HasReference(words, v) ==> Dollars(Render(Expand(words, v, n))) < Dollars(v)
    decreases |v|
  {
    if v != "" {
      var w := v[1..];
      assert HasReference(words, v) ==> (v[0] == '$' && Reference(words, w) > 0) || HasReference(words, w) by {
        if HasReference(words, v) {
          var i :| 0 <= i < |v| && v[i] == '$' && Reference(words, v[i + 1..]) > 0;
          assert i > 0 ==> w[i - 1] == '$' && w[i - 1 + 1..] == v[i + 1..];
        }
      }
      if v[0] != '$' || Reference(words, w) == 0 {
        ReferenceCosts(words, w, n);
        var rest := Expand(words, w, n);
        assert ([Lit(v[0])] + rest)[1..] == rest;
        assert Render([Lit(v[0])] + rest) == [v[0]] + Render(rest);
        assert ([v[0]] + Render(rest))[1..] == Render(rest);
      } else {
        CostOfReference(words, v, n);
        ReferenceCosts(words, v[Taken(words, v)..], n);
      }
    }
  }

  /** A reference at the head: at least one dollar sign goes. */
  lemma {:induction false} CostOfReference(words: Words, v: string, n: string)
    requires Name(n) && v != "" && v[0] == '$' && Reference(words, v[1..]) > 0
    ensures var rest := v[Taken(words, v)..];
      && Dollars(v) > Dollars(rest)
      && (v[1] != '$' ==> Dollars(Render(Expand(words, v, n))) == Dollars(Render(Expand(words, rest, n))))
      && (v[1] == '$' ==>
            && Dollars(Render(Expand(words, v, n))) == 1 + Dollars(Render(Expand(words, rest, n)))
            && Dollars(v) == 2 + Dollars(rest))
  {
    var r := Taken(words, v);
    var rest := v[r..];
    assert v == v[..r] + rest;
    DollarsConcat(v[..r], rest);
    assert Dollars(v[..r]) == 1 + Dollars(v[..r][1..]);
    var out := Expand(words, rest, n);
    if v[1] == '$' {
      assert v[..r] == "$$";
      assert Dollars("$$") == 2;
      assert ([Lit('$')] + out)[1..] == out;
      assert (['$'] + Render(out))[1..] == Render(out);
    } else {
      DollarsOfPlaceholder(n, out);
    }
  }

  /** A value comes back as it was iff none of its dollar signs begins a reference. */
  lemma {:induction false} ExpansionIsIdentity(words: Words, v: string, n: string)
    requires Name(n)
    ensures Render(Expand(words, v, n)) == v <==> !HasReference(words, v)
  {
    if HasReference(words, v) {
      ReferenceCosts(words, v, n);
    } else {
      NoReferenceLiteral(words, v, n);
      RenderLits(v);
    }
  }

  lemma {:induction false} RenderLits(v: string)
    ensures Render(Lits(v)) == v
    decreases v
  {
    if v != "" {
      assert Lits(v)[1..] == Lits(v[1..]);
      RenderLits(v[1..]);
    }
  }
}
