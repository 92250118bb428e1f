/**
  What the walk over a JSON document does, said without the walk: which elements go, where
  everything in the output comes from, and that `Rewrite` never fails on account of it.
 */
module JsonLaws {
  import opened Results
  import opened JsonWalk

  // ------------------------------------------------------------------ removal

  /** An element that cannot stand inside links. */
  predicate Removable(rw: Rewriter, j: Json) {
    match j
    case Obj(fields) => DeadLink(rw, fields)
    case Arr(elems) => elems != [] && forall i | 0 <= i < |elems| :: Removable(rw, elems[i])
    case _ => false
  }

  lemma {:induction false} RemovalExact(rw: Rewriter, j: Json, inLinks: bool)
    ensures Walk(rw, j, inLinks).Removed? <==> inLinks && Removable(rw, j)
    decreases j
  {
    if j.Arr? {
      WalkAllEmpty(rw, j.elems, inLinks);
    }
  }

  lemma {:induction false} WalkAllEmpty(rw: Rewriter, elems: seq<Json>, inLinks: bool)
    ensures WalkAll(rw, elems, inLinks) == [] <==>
      elems == [] || (inLinks && forall i | 0 <= i < |elems| :: Removable(rw, elems[i]))
    decreases elems
  {
    if elems != [] {
      var rest := elems[1..];
      RemovalExact(rw, elems[0], inLinks);
      WalkAllEmpty(rw, rest, inLinks);
      assert forall i | 0 <= i < |rest| :: rest[i] == elems[i + 1];
      assert forall i | 0 < i < |elems| :: elems[i] == rest[i - 1];
    }
  }

  /** Exactly which keys of a kept object survive. */
  lemma {:induction false} KeysKept(rw: Rewriter, j: Json, inLinks: bool, k: string)
    requires j.Obj? && Walk(rw, j, inLinks).Kept?
    ensures Walk(rw, j, inLinks).value.Obj?
    ensures k in Walk(rw, j, inLinks).value.fields <==>
      && k in j.fields
      && (if k == "href" then j.fields[k].Str? ==> rw(j.fields[k].s).Mapped?
          else !(Under(k, inLinks) && Removable(rw, j.fields[k])))
  {
    if k in j.fields {
      RemovalExact(rw, j.fields[k], Under(k, inLinks));
    }
  }

  /** The positions of the elements that are kept. */
  function Survivors(rw: Rewriter, elems: seq<Json>, inLinks: bool): (kept: seq<nat>)
    ensures forall i | 0 <= i < |kept| :: kept[i] < |elems|
    ensures forall i, j | 0 <= i < j < |kept| :: kept[i] < kept[j]
    ensures forall n: nat | n < |elems| :: n in kept <==> !(inLinks && Removable(rw, elems[n]))
  {
    if elems == [] then []
    else
      var n := |elems| - 1;
      var before := Survivors(rw, elems[..n], inLinks);
      if inLinks && Removable(rw, elems[n]) then before else before + [n]
  }

  /** Surviving elements keep their order, and each is the walk of the element it was. */
  lemma {:induction false} ElementsKept(rw: Rewriter, elems: seq<Json>, inLinks: bool, i: nat)
    ensures |WalkAll(rw, elems, inLinks)| == |Survivors(rw, elems, inLinks)|
    ensures i < |Survivors(rw, elems, inLinks)| ==>
      Walk(rw, elems[Survivors(rw, elems, inLinks)[i]], inLinks) == Kept(WalkAll(rw, elems, inLinks)[i])
  {
    ElementsPlaced(rw, elems, inLinks);
  }

  ghost predicate Placed(rw: Rewriter, elems: seq<Json>, inLinks: bool, kept: seq<nat>, out: seq<Json>) {
    && |out| == |kept|
    && forall i | 0 <= i < |kept| :: kept[i] < |elems| && Walk(rw, elems[kept[i]], inLinks) == Kept(out[i])
  }

  lemma {:induction false} ElementsPlaced(rw: Rewriter, elems: seq<Json>, inLinks: bool)
    ensures Placed(rw, elems, inLinks, Survivors(rw, elems, inLinks), WalkAll(rw, elems, inLinks))
  {
    if elems != [] {
      var before := elems[..|elems| - 1];
      ElementsPlaced(rw, before, inLinks);
      LastSurvives(rw, elems, inLinks);
      LastWalked(rw, elems, inLinks);
      PlacedSnoc(rw, elems, inLinks, Survivors(rw, before, inLinks), WalkAll(rw, before, inLinks));
    }
  }

  lemma {:induction false} PlacedSnoc(rw: Rewriter, elems: seq<Json>, inLinks: bool, kept: seq<nat>, out: seq<Json>)
    requires elems != [] && Placed(rw, elems[..|elems| - 1], inLinks, kept, out)
    ensures var n := |elems| - 1; var o := Walk(rw, elems[n], inLinks);
      Placed(rw, elems, inLinks, kept + if o.Kept? then [n] else [], out + Slot(o))
  {
  }

  lemma {:induction false} LastSurvives(rw: Rewriter, elems: seq<Json>, inLinks: bool)
    requires elems != []
    ensures var n := |elems| - 1;
      Survivors(rw, elems, inLinks) ==
        Survivors(rw, elems[..n], inLinks) + if Walk(rw, elems[n], inLinks).Kept? then [n] else []
  {
    RemovalExact(rw, elems[|elems| - 1], inLinks);
  }

  lemma {:induction false} LastWalked(rw: Rewriter, elems: seq<Json>, inLinks: bool)
    requires elems != []
    ensures var n := |elems| - 1;
      WalkAll(rw, elems, inLinks) == WalkAll(rw, elems[..n], inLinks) + Slot(Walk(rw, elems[n], inLinks))
    decreases |elems|
  {
    var n, rest := |elems| - 1, elems[1..];
    if n > 0 {
      LastWalked(rw, rest, inLinks);
      assert elems[..n][1..] == rest[..n - 1] && elems[..n][0] == elems[0];
      var a, b := Slot(Walk(rw, elems[0], inLinks)), WalkAll(rw, rest[..n - 1], inLinks);
      var c := Slot(Walk(rw, elems[n], inLinks));
      assert a + (b + c) == (a + b) + c;
    }
  }

  // ------------------------------------------------------------------ where the output comes from

  datatype Step = Key(key: string) | Index(index: nat)
  type Path = seq<Step>

  predicate HasChild(j: Json, st: Step) {
    match st
    case Key(k) => j.Obj? && k in j.fields
    case Index(i) => j.Arr? && i < |j.elems|
  }

  function Child(j: Json, st: Step): Json
    requires HasChild(j, st)
  {
    match st
    case Key(k) => j.fields[k]
    case Index(i) => j.elems[i]
  }

  predicate Has(j: Json, p: Path) {
    p == [] || (HasChild(j, p[0]) && Has(Child(j, p[0]), p[1..]))
  }

  function At(j: Json, p: Path): Json
    requires Has(j, p)
  {
    if p == [] then j else At(Child(j, p[0]), p[1..])
  }

  /** Only the last step may be an `href` key: what lies below one is not walked. */
  predicate OutsideHref(p: Path) {
    forall i | 0 <= i < |p| - 1 :: p[i] != Key("href")
  }

  predicate AtHref(p: Path) {
    p != [] && p[|p| - 1] == Key("href")
  }

  function FlagBelow(st: Step, inLinks: bool): bool {
    if st.Key? then Under(st.key, inLinks) else inLinks
  }

  /** The child of the document that the child `st` of the output comes from. */
  function Source(rw: Rewriter, j: Json, inLinks: bool, st: Step): (src: Step)
    requires Walk(rw, j, inLinks).Kept? && HasChild(Walk(rw, j, inLinks).value, st)
    ensures HasChild(j, src)
    ensures st != Key("href") ==>
      Walk(rw, Child(j, src), FlagBelow(src, inLinks)) == Kept(Child(Walk(rw, j, inLinks).value, st))
    ensures src == st || (st.Index? && src.Index? && st.index <= src.index)
  {
    match st
    case Key(_) => st
    case Index(i) =>
      ElementsKept(rw, j.elems, inLinks, i);
      SurvivorsFew(rw, j.elems, inLinks);
      Index(Survivors(rw, j.elems, inLinks)[i])
  }

  /** The place in the document that the place `p` of the output comes from. */
  function Origin(rw: Rewriter, j: Json, inLinks: bool, p: Path): (q: Path)
    requires Walk(rw, j, inLinks).Kept? && Has(Walk(rw, j, inLinks).value, p) && OutsideHref(p)
    ensures |q| == |p|
    decreases |p|
  {
    if p == [] then []
    else if |p| == 1 then [Source(rw, j, inLinks, p[0])]
    else
      var src := Source(rw, j, inLinks, p[0]);
      [src] + Origin(rw, Child(j, src), FlagBelow(src, inLinks), p[1..])
  }

  /** `p` and `q` differ only in that an element may have stood further back in its array. */
  predicate SamePlace(p: Path, q: Path) {
    && |p| == |q|
    && forall i | 0 <= i < |p| ::
      p[i] == q[i] || (p[i].Index? && q[i].Index? && p[i].index <= q[i].index)
  }

  /** What a value of the output is, compared with the value it comes from. */
  predicate Faithful(rw: Rewriter, before: Json, after: Json, isHref: bool) {
    if isHref && before.Str? then after.Str? && rw(before.s) == Mapped(after.s)
    else if isHref then after == before
    else match before
      case Obj(fields) => after.Obj? && after.fields.Keys <= fields.Keys
      case Arr(elems) => after.Arr? && |after.elems| <= |elems| && (after.elems == [] <==> elems == [])
      case _ => after == before
  }

  /** Every place of the output outside `href` values comes from one place of the document, faithfully. */
  lemma {:induction false} OutputTracesBack(rw: Rewriter, j: Json, inLinks: bool, p: Path)
    requires Walk(rw, j, inLinks).Kept? && Has(Walk(rw, j, inLinks).value, p) && OutsideHref(p)
    ensures SamePlace(p, Origin(rw, j, inLinks, p)) && Has(j, Origin(rw, j, inLinks, p))
    ensures Faithful(rw, At(j, Origin(rw, j, inLinks, p)), At(Walk(rw, j, inLinks).value, p), AtHref(p))
    decreases |p|
  {
    if p == [] {
      TopFaithful(rw, j, inLinks);
    } else if |p| == 1 {
      assert p == [p[0]];
      ChildFaithful(rw, j, inLinks, p[0]);
      AtChild(j, Source(rw, j, inLinks, p[0]));
      AtChild(Walk(rw, j, inLinks).value, p[0]);
    } else {
      var src := Source(rw, j, inLinks, p[0]);
      var child, flag, out := Child(j, src), FlagBelow(src, inLinks), Child(Walk(rw, j, inLinks).value, p[0]);
      assert Walk(rw, child, flag) == Kept(out);
      OutputTracesBack(rw, child, flag, p[1..]);
      assert p == [p[0]] + p[1..] && AtHref(p) == AtHref(p[1..]);
      TracedStep(rw, j, Walk(rw, j, inLinks).value, p[0], src, p[1..], Origin(rw, child, flag, p[1..]), AtHref(p));
    }
  }

  /** One step down in both documents. */
  lemma {:induction false} TracedStep(
    rw: Rewriter, j: Json, out: Json, st: Step, src: Step, p: Path, q: Path, isHref: bool)
    requires HasChild(out, st) && HasChild(j, src) && (src == st || (st.Index? && src.Index? && st.index <= src.index))
    requires Has(Child(out, st), p) && Has(Child(j, src), q) && SamePlace(p, q)
    requires Faithful(rw, At(Child(j, src), q), At(Child(out, st), p), isHref)
    ensures SamePlace([st] + p, [src] + q) && Has(j, [src] + q) && Has(out, [st] + p)
    ensures Faithful(rw, At(j, [src] + q), At(out, [st] + p), isHref)
  {
    AtCons(j, src, q);
    AtCons(out, st, p);
  }

  lemma {:induction false} ChildFaithful(rw: Rewriter, j: Json, inLinks: bool, st: Step)
    requires Walk(rw, j, inLinks).Kept? && HasChild(Walk(rw, j, inLinks).value, st)
    ensures Faithful(rw, Child(j, Source(rw, j, inLinks, st)), Child(Walk(rw, j, inLinks).value, st), st == Key("href"))
  {
    if st != Key("href") {
      var src := Source(rw, j, inLinks, st);
      TopFaithful(rw, Child(j, src), FlagBelow(src, inLinks));
    }
  }

  lemma {:induction false} AtCons(j: Json, st: Step, p: Path)
    requires HasChild(j, st) && Has(Child(j, st), p)
    ensures Has(j, [st] + p) && At(j, [st] + p) == At(Child(j, st), p)
  {
    assert ([st] + p)[1..] == p;
  }

  lemma {:induction false} AtChild(j: Json, st: Step)
    requires HasChild(j, st)
    ensures Has(j, [st]) && At(j, [st]) == Child(j, st)
  {
    assert [st][1..] == [];
  }

  lemma {:induction false} TopFaithful(rw: Rewriter, j: Json, inLinks: bool)
    requires Walk(rw, j, inLinks).Kept?
    ensures Faithful(rw, j, Walk(rw, j, inLinks).value, false)
  {
    match j
    case Arr(elems) => NoneAdded(rw, elems, inLinks);
    case Obj(fields) => assert forall k | k in WalkFields(rw, j, inLinks) :: k in fields;
    case _ =>
  }

  lemma {:induction false} NoneAdded(rw: Rewriter, elems: seq<Json>, inLinks: bool)
    ensures |WalkAll(rw, elems, inLinks)| <= |elems|
    decreases elems
  {
    if elems != [] {
      NoneAdded(rw, elems[1..], inLinks);
    }
  }

  lemma {:induction false} SurvivorsFew(rw: Rewriter, elems: seq<Json>, inLinks: bool)
    ensures |Survivors(rw, elems, inLinks)| <= |elems|
    ensures forall i | 0 <= i < |Survivors(rw, elems, inLinks)| :: i <= Survivors(rw, elems, inLinks)[i]
  {
    if elems != [] {
      SurvivorsFew(rw, elems[..|elems| - 1], inLinks);
    }
  }

  // ------------------------------------------------------------------ the whole body

  datatype Decoded = NotJson | Document(value: Value)
  datatype Rewritten = BodyAsIs | NewBody(value: Value) | Failed

  /** `Rewrite`: a body that is not JSON passes unchanged, any other is walked outside links. */
  method Rewrite(rw: Rewriter, body: Decoded, ghost s: Shape) returns (out: Rewritten, ghost s': Shape)
    requires body.Document? ==> Tree(s) && Holds(body.value, s)
    modifies Owned(s)
    ensures body.NotJson? ==> out == BodyAsIs
    ensures body.Document? ==> out.NewBody? && Walked(rw, false, s, s') && Holds(out.value, s')
  {
    out, s' := BodyAsIs, s;
    if body.Document? {
      var v, removed;
      v, removed, s' := WalkJson(rw, body.value, false, s);
      RemovalExact(rw, Doc(s), false);
      out := if removed then Failed else NewBody(v);
    }
  }
}
