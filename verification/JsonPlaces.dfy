/**
  Which places of a document go (proxy/hostrewriter.go), said of the document alone: with the
  names of the keys and the answers of the URL rewriter written out.
 */
module JsonPlaces {
  import opened Results
  import opened JsonWalk
  import opened JsonLaws

  /** A value that cannot stand inside links. */
  predicate Dead(rw: Rewriter, j: Json) {
    match j
    case Obj(fields) => "href" in fields && fields["href"].Str? && rw(fields["href"].s) == Unmappable
    case Arr(elems) => elems != [] && forall i | 0 <= i < |elems| :: Dead(rw, elems[i])
    case _ => false
  }

  /** The place itself is a reason to go. */
  predicate Lost(rw: Rewriter, j: Json, inLinks: bool, p: Path)
    requires Has(j, p)
  {
    if p != [] && p[|p| - 1] == Key("href") then At(j, p).Str? && !rw(At(j, p).s).Mapped?
    else (inLinks || Key("links") in p || Key("_links") in p) && Dead(rw, At(j, p))
  }

  /** The place or one above it is. */
  ghost predicate Goes(rw: Rewriter, j: Json, inLinks: bool, p: Path) {
    exists n | 0 <= n <= |p| :: Has(j, p[..n]) && Lost(rw, j, inLinks, p[..n])
  }

  /** A place of the output that comes from place `p` of the document. */
  ghost predicate ComesFrom(rw: Rewriter, j: Json, inLinks: bool, q: Path, p: Path)
    requires Walk(rw, j, inLinks).Kept?
  {
    Has(Walk(rw, j, inLinks).value, q) && OutsideHref(q) && Origin(rw, j, inLinks, q) == p
  }

  lemma {:induction false} DeadExact(rw: Rewriter, j: Json)
    ensures Dead(rw, j) <==> Removable(rw, j)
    decreases j
  {
    if j.Arr? {
      forall i | 0 <= i < |j.elems|
        ensures Dead(rw, j.elems[i]) <==> Removable(rw, j.elems[i])
      {
        DeadExact(rw, j.elems[i]);
      }
    }
  }

  /** A walk keeps a value unless it is dead inside links. */
  lemma {:induction false} KeptExact(rw: Rewriter, j: Json, inLinks: bool)
    ensures Walk(rw, j, inLinks).Kept? <==> !(inLinks && Dead(rw, j))
  {
    RemovalExact(rw, j, inLinks);
    DeadExact(rw, j);
  }

  predicate Opens(st: Step) {
    st == Key("links") || st == Key("_links")
  }

  lemma {:induction false} FlagExact(st: Step, inLinks: bool)
    ensures FlagBelow(st, inLinks) <==> inLinks || Opens(st)
  {
  }

  /** Below the first step, a place is lost for the same reason in the child. */
  lemma {:induction false} LostBelow(rw: Rewriter, j: Json, inLinks: bool, p: Path)
    requires p != [] && Has(j, p) && OutsideHref(p) && p != [Key("href")]
    ensures Lost(rw, j, inLinks, p) <==> Lost(rw, Child(j, p[0]), inLinks || Opens(p[0]), p[1..])
  {
    assert p == [p[0]] + p[1..];
    assert Key("links") in p <==> p[0] == Key("links") || Key("links") in p[1..];
    assert Key("_links") in p <==> p[0] == Key("_links") || Key("_links") in p[1..];
  }

  lemma {:induction false} PrefixHas(j: Json, p: Path, n: nat)
    requires Has(j, p) && n <= |p|
    ensures Has(j, p[..n])
    decreases |p|
  {
    if n > 0 {
      PrefixHas(Child(j, p[0]), p[1..], n - 1);
      assert p[..n][1..] == p[1..][..n - 1];
    }
  }

  /** A place goes with its first step, or below it. */
  lemma {:induction false} GoesBelow(rw: Rewriter, j: Json, inLinks: bool, p: Path)
    requires |p| > 1 && Has(j, p) && OutsideHref(p) && Walk(rw, j, inLinks).Kept?
    ensures Goes(rw, j, inLinks, p) <==> Goes(rw, Child(j, p[0]), inLinks || Opens(p[0]), p[1..])
  {
    var child, flag := Child(j, p[0]), inLinks || Opens(p[0]);
    KeptExact(rw, j, inLinks);
    forall n | 1 <= n <= |p|
      ensures Has(j, p[..n]) && Has(child, p[1..][..n - 1])
      ensures Lost(rw, j, inLinks, p[..n]) <==> Lost(rw, child, flag, p[1..][..n - 1])
    {
      PrefixHas(j, p, n);
      assert p[..n][1..] == p[1..][..n - 1];
      LostBelow(rw, j, inLinks, p[..n]);
    }
    if Goes(rw, child, flag, p[1..]) {
      var m :| 0 <= m <= |p| - 1 && Has(child, p[1..][..m]) && Lost(rw, child, flag, p[1..][..m]);
      assert Lost(rw, j, inLinks, p[..m + 1]);
    }
    if Goes(rw, j, inLinks, p) {
      var n :| 0 <= n <= |p| && Has(j, p[..n]) && Lost(rw, j, inLinks, p[..n]);
      assert Lost(rw, child, flag, p[1..][..n - 1]);
    }
  }

  lemma {:induction false} GoesOne(rw: Rewriter, j: Json, inLinks: bool, st: Step)
    requires HasChild(j, st) && Walk(rw, j, inLinks).Kept?
    ensures Has(j, [st]) && (Goes(rw, j, inLinks, [st]) <==> Lost(rw, j, inLinks, [st]))
  {
    AtChild(j, st);
    KeptExact(rw, j, inLinks);
    assert [st][..1] == [st] && [st][..0] == [];
  }

  /** Which children stay. */
  lemma {:induction false} ChildStays(rw: Rewriter, j: Json, inLinks: bool, st: Step) returns (st': Step)
    requires Walk(rw, j, inLinks).Kept? && HasChild(j, st) && Has(j, [st]) && !Lost(rw, j, inLinks, [st])
    ensures HasChild(Walk(rw, j, inLinks).value, st') && Source(rw, j, inLinks, st') == st
    ensures st' == Key("href") <==> st == Key("href")
  {
    AtChild(j, st);
    DeadExact(rw, Child(j, st));
    st' := st;
    match st
    case Key(k) => KeysKept(rw, j, inLinks, k);
    case Index(n) =>
      var kept := Survivors(rw, j.elems, inLinks);
      assert n in kept;
      var i :| 0 <= i < |kept| && kept[i] == n;
      ElementsKept(rw, j.elems, inLinks, i);
      st' := Index(i);
  }

  lemma {:induction false} ChildKept(rw: Rewriter, j: Json, inLinks: bool, st': Step)
    requires Walk(rw, j, inLinks).Kept? && HasChild(Walk(rw, j, inLinks).value, st')
    ensures var st := Source(rw, j, inLinks, st');
      HasChild(j, st) && Has(j, [st]) && !Lost(rw, j, inLinks, [st]) && (st' == Key("href") <==> st == Key("href"))
  {
    var st := Source(rw, j, inLinks, st');
    AtChild(j, st);
    if st == Key("href") {
      KeysKept(rw, j, inLinks, "href");
    } else {
      KeptExact(rw, Child(j, st), FlagBelow(st, inLinks));
      FlagExact(st, inLinks);
    }
  }

  /** What is in the output has no reason to go. */
  lemma {:induction false} KeptStays(rw: Rewriter, j: Json, inLinks: bool, q: Path)
    requires Walk(rw, j, inLinks).Kept? && Has(Walk(rw, j, inLinks).value, q) && OutsideHref(q)
    ensures var p := Origin(rw, j, inLinks, q); Has(j, p) && OutsideHref(p) && !Goes(rw, j, inLinks, p)
    decreases |q|
  {
    OutputTracesBack(rw, j, inLinks, q);
    if q == [] {
      KeptExact(rw, j, inLinks);
    } else if |q| == 1 {
      ChildKept(rw, j, inLinks, q[0]);
      GoesOne(rw, j, inLinks, Source(rw, j, inLinks, q[0]));
    } else {
      var st := Source(rw, j, inLinks, q[0]);
      var rest := Origin(rw, Child(j, st), FlagBelow(st, inLinks), q[1..]);
      KeptStays(rw, Child(j, st), FlagBelow(st, inLinks), q[1..]);
      StaysBelow(rw, j, inLinks, q[0], rest);
    }
  }

  /** Below a child that is kept, what has no reason to go there has none at all. */
  lemma {:induction false} StaysBelow(rw: Rewriter, j: Json, inLinks: bool, st': Step, rest: Path)
    requires Walk(rw, j, inLinks).Kept? && HasChild(Walk(rw, j, inLinks).value, st') && st' != Key("href")
    requires var st := Source(rw, j, inLinks, st');
      rest != [] && Has(Child(j, st), rest) && OutsideHref(rest)
      && !Goes(rw, Child(j, st), FlagBelow(st, inLinks), rest)
    ensures var p := [Source(rw, j, inLinks, st')] + rest; Has(j, p) && OutsideHref(p) && !Goes(rw, j, inLinks, p)
  {
    var st := Source(rw, j, inLinks, st');
    var p := [st] + rest;
    assert p[1..] == rest;
    ChildKept(rw, j, inLinks, st');
    AtCons(j, st, rest);
    FlagExact(st, inLinks);
    GoesBelow(rw, j, inLinks, p);
  }

  /** What has no reason to go is in the output. */
  lemma {:induction false} StaysKept(rw: Rewriter, j: Json, inLinks: bool, p: Path) returns (q: Path)
    requires Walk(rw, j, inLinks).Kept? && Has(j, p) && OutsideHref(p) && !Goes(rw, j, inLinks, p)
    ensures ComesFrom(rw, j, inLinks, q, p)
    ensures |q| == |p| && forall i | 0 <= i < |q| :: q[i] == Key("href") <==> p[i] == Key("href")
    decreases |p|
  {
    q := [];
    if p != [] {
      var st, rest := p[0], p[1..];
      PrefixHas(j, p, 1);
      assert p[..1] == [st] && p == [st] + rest;
      assert !Lost(rw, j, inLinks, [st]);
      var st' := ChildStays(rw, j, inLinks, st);
      if rest == [] {
        q := [st'];
        AtChild(Walk(rw, j, inLinks).value, st');
      } else {
        var child, flag := Child(j, st), FlagBelow(st, inLinks);
        FlagExact(st, inLinks);
        GoesBelow(rw, j, inLinks, p);
        var q' := StaysKept(rw, child, flag, rest);
        q := [st'] + q';
        assert q[1..] == q';
        AtCons(Walk(rw, j, inLinks).value, st', q');
      }
    }
  }

  /**
    Exactly which places go, in the walk of a whole body: a place that is not below an `href`
    key is in the output if and only if neither it nor a place above it is an `href` key with a
    string that is not mapped, or a dead value on a path through `links` or `_links`.
   */
  lemma {:induction false} PlacesExact(rw: Rewriter, j: Json, p: Path)
    requires Has(j, p) && OutsideHref(p)
    ensures Walk(rw, j, false).Kept?
    ensures (exists q :: ComesFrom(rw, j, false, q, p)) <==> !Goes(rw, j, false, p)
  {
    KeptExact(rw, j, false);
    if q :| ComesFrom(rw, j, false, q, p) {
      KeptStays(rw, j, false, q);
    }
    if !Goes(rw, j, false, p) {
      var q := StaysKept(rw, j, false, p);
    }
  }
}
