/**
  The response rewriter's walk over a decoded JSON document (proxy/hostrewriter.go).

  `Json` is a document as a value and `Walk` says what the walk makes of it. `Value` is
  a document as the program holds it: objects are mutable maps on the heap, and
  `WalkJson` deletes and overwrites their entries while it ranges over them in any order.
 */
module JsonWalk {
  import opened Results

  datatype Json =
    | Null
    | Bool(b: bool)
    | Number(n: real)
    | Str(s: string)
    | Arr(elems: seq<Json>)
    | Obj(fields: map<string, Json>)

  /** `RewriteUrl`, for the URLs of one response. */
  type Rewriter = string -> UrlResult<string>

  /** What the walk makes of a document: a value, or the `RemoveElement` error. */
  datatype Outcome = Kept(value: Json) | Removed

  // ------------------------------------------------------------------ the specification

  /** The flag under which the value of `key` is walked. */
  predicate Under(key: string, inLinks: bool) {
    inLinks || key == "links" || key == "_links"
  }

  /** A string `href` that no mapping matches. */
  predicate DeadHref(rw: Rewriter, j: Json) {
    j.Str? && rw(j.s).Unmappable?
  }

  predicate DeadLink(rw: Rewriter, fields: map<string, Json>) {
    "href" in fields && DeadHref(rw, fields["href"])
  }

  /** What becomes of the value of an `href` key in an object that is kept. */
  function Href(rw: Rewriter, j: Json): Outcome {
    if !j.Str? then Kept(j)
    else match rw(j.s)
      case Mapped(url) => Kept(Str(url))
      case _ => Removed
  }

  function Walk(rw: Rewriter, j: Json, inLinks: bool): Outcome
    decreases j, 2
  {
    match j
    case Obj(fields) =>
      if inLinks && DeadLink(rw, fields) then Removed else Kept(Obj(WalkFields(rw, j, inLinks)))
    case Arr(elems) =>
      var out := WalkAll(rw, elems, inLinks);
      if out == [] && elems != [] then Removed else Kept(Arr(out))
    case _ => Kept(j)
  }

  /** The fields that are kept. */
  function WalkFields(rw: Rewriter, j: Json, inLinks: bool): (out: map<string, Json>)
    requires j.Obj?
    ensures forall k :: k in out <==> k in j.fields && Field(rw, j, k, inLinks).Kept?
    ensures forall k | k in out :: Field(rw, j, k, inLinks) == Kept(out[k])
    decreases j, 1
  {
    map k | k in j.fields && Field(rw, j, k, inLinks).Kept? :: Field(rw, j, k, inLinks).value
  }

  /** What becomes of the value of key `k` of the object `j`. */
  function Field(rw: Rewriter, j: Json, k: string, inLinks: bool): Outcome
    requires j.Obj? && k in j.fields
    decreases j, 0
  {
    if k == "href" then Href(rw, j.fields[k])
    else Walk(rw, j.fields[k], Under(k, inLinks))
  }

  /** The elements that are kept, in order. */
  function WalkAll(rw: Rewriter, elems: seq<Json>, inLinks: bool): seq<Json>
    decreases elems, 3
  {
    if elems == [] then []
    else
      Slot(Walk(rw, elems[0], inLinks)) + WalkAll(rw, elems[1..], inLinks)
  }

  function Slot(o: Outcome): seq<Json> {
    if o.Kept? then [o.value] else []
  }

  // ------------------------------------------------------------------ the document on the heap

  class GoMap {
    var entries: map<string, Value>
    constructor (entries: map<string, Value>)
      ensures this.entries == entries
    {
      this.entries := entries;
    }
  }

  datatype Value =
    | VNull
    | VBool(b: bool)
    | VNumber(n: real)
    | VStr(s: string)
    | VArr(elems: seq<Value>)
    | VObj(obj: GoMap)

  /**
    A document together with the heap object that holds each of its objects; `owned` are
    the heap objects of a whole subtree.
   */
  datatype Shape =
    | Leaf(scalar: Json)
    | ArrShape(elems: seq<Shape>, owned: set<GoMap>)
    | ObjShape(obj: GoMap, fields: map<string, Shape>, owned: set<GoMap>)

  ghost function Owned(s: Shape): set<GoMap> {
    if s.Leaf? then {} else s.owned
  }

  /** No object is shared: decoding builds a tree. */
  ghost predicate Tree(s: Shape) {
    match s
    case Leaf(j) => !j.Arr? && !j.Obj?
    case ArrShape(elems, owned) =>
      && (forall i | 0 <= i < |elems| :: Tree(elems[i]) && Owned(elems[i]) <= owned)
      && (forall i, j | 0 <= i < j < |elems| :: Owned(elems[i]) !! Owned(elems[j]))
    case ObjShape(obj, fields, owned) =>
      && obj in owned
      && (forall k | k in fields :: Tree(fields[k]) && Owned(fields[k]) <= owned - {obj})
      && (forall k, l | k in fields && l in fields && k != l :: Owned(fields[k]) !! Owned(fields[l]))
  }

  function Scalar(j: Json): Value {
    match j
    case Null => VNull
    case Bool(b) => VBool(b)
    case Number(n) => VNumber(n)
    case Str(s) => VStr(s)
    case _ => VNull
  }

  /** The heap value `v` holds the document of shape `s`. */
  ghost predicate Holds(v: Value, s: Shape)
    requires Tree(s)
    reads Owned(s)
    decreases s
  {
    match s
    case Leaf(j) => v == Scalar(j)
    case ArrShape(elems, _) =>
      && v.VArr? && |v.elems| == |elems|
      && (forall i | 0 <= i < |elems| :: Holds(v.elems[i], elems[i]))
    case ObjShape(obj, fields, _) =>
      && v == VObj(obj)
      && obj.entries.Keys == fields.Keys
      && (forall k | k in fields :: Holds(obj.entries[k], fields[k]))
  }

  ghost function Doc(s: Shape): Json {
    match s
    case Leaf(j) => j
    case ArrShape(elems, _) => Arr(Docs(elems))
    case ObjShape(_, fields, _) => Obj(map k | k in fields :: Doc(fields[k]))
  }

  ghost function Docs(elems: seq<Shape>): seq<Json> {
    if elems == [] then [] else [Doc(elems[0])] + Docs(elems[1..])
  }

  /** `s'` is what the walk makes of `s`, in the same heap objects. */
  ghost predicate Walked(rw: Rewriter, inLinks: bool, s: Shape, s': Shape) {
    && Tree(s') && Owned(s') <= Owned(s)
    && Walk(rw, Doc(s), inLinks) == Kept(Doc(s'))
  }

  // ------------------------------------------------------------------ the walk in place

  method WalkJson(rw: Rewriter, v: Value, inLinks: bool, ghost s: Shape)
    returns (r: Value, removed: bool, ghost s': Shape)
    requires Tree(s) && Holds(v, s)
    modifies Owned(s)
    ensures removed <==> Walk(rw, Doc(s), inLinks).Removed?
    ensures !removed ==> Walked(rw, inLinks, s, s') && Holds(r, s')
    decreases s, 3
  {
    s' := s;
    match v {
      case VObj(obj) =>
        removed, s' := WalkObject(rw, obj, inLinks, s);
        r := v;
      case VArr(elems) =>
        r, removed, s' := WalkArray(rw, elems, inLinks, s);
      case _ =>
        r, removed := v, false;
    }
  }

  /**
    The loop over the keys of an object: `todo` are the keys still to be visited, and
    `t` gives the present shape of each field that is still there.
   */
  ghost predicate Ranging(rw: Rewriter, inLinks: bool, s: Shape, todo: set<string>, t: Shape)
    requires s.ObjShape?
  {
    && t.ObjShape? && t.obj == s.obj && t.owned == s.owned && Tree(t)
    && Fields(rw, inLinks, s, todo, t.fields)
  }

  ghost predicate Fields(rw: Rewriter, inLinks: bool, s: Shape, todo: set<string>, now: map<string, Shape>)
    requires s.ObjShape?
  {
    && todo <= now.Keys <= s.fields.Keys
    && (forall k | k in todo :: now[k] == s.fields[k])
    && (forall k | k in now && k !in todo :: FieldDone(rw, inLinks, s, k, now[k]))
    && (forall k | k in s.fields && k !in now :: Field(rw, Doc(s), k, inLinks).Removed?)
  }

  /** The new shape of field `k` once the loop has passed it. */
  ghost predicate FieldDone(rw: Rewriter, inLinks: bool, s: Shape, k: string, shape: Shape)
    requires s.ObjShape? && k in s.fields
  {
    && Tree(shape) && Owned(shape) <= Owned(s.fields[k])
    && Field(rw, Doc(s), k, inLinks) == Kept(Doc(shape))
  }

  /** The object is a dead link inside links. */
  ghost predicate Dies(rw: Rewriter, inLinks: bool, s: Shape)
    requires s.ObjShape?
  {
    inLinks && DeadLink(rw, Doc(s).fields)
  }

  /** The loop's invariant: the heap holds the present shape. */
  ghost predicate InRange(rw: Rewriter, inLinks: bool, obj: GoMap, s: Shape, todo: set<string>, t: Shape)
    requires s.ObjShape?
    reads Owned(t)
  {
    Ranging(rw, inLinks, s, todo, t) && Holds(VObj(obj), t)
  }

  lemma {:induction false} RangingBegins(rw: Rewriter, inLinks: bool, s: Shape)
    requires s.ObjShape? && Tree(s)
    ensures Ranging(rw, inLinks, s, s.fields.Keys, s)
  {
  }

  method WalkObject(rw: Rewriter, obj: GoMap, inLinks: bool, ghost s: Shape)
    returns (removed: bool, ghost s': Shape)
    requires Tree(s) && Holds(VObj(obj), s)
    modifies Owned(s)
    ensures removed <==> Walk(rw, Doc(s), inLinks).Removed?
    ensures !removed ==> Walked(rw, inLinks, s, s') && Holds(VObj(obj), s')
    decreases s, 2
  {
    ObjectRemoved(rw, Doc(s), inLinks);
    RangingBegins(rw, inLinks, s);
    ghost var dies := Dies(rw, inLinks, s);
    removed, s' := RangeObject(rw, obj, inLinks, s, dies);
    if !removed {
      RangingEnds(rw, inLinks, s, s');
    }
  }

  /** The loop; `dead` is the early return with `RemoveElement`, taken iff the object `dies`. */
  method RangeObject(rw: Rewriter, obj: GoMap, inLinks: bool, ghost s: Shape, ghost dies: bool)
    returns (dead: bool, ghost t: Shape)
    requires s.ObjShape? && s.obj == obj && Tree(s) && InRange(rw, inLinks, obj, s, obj.entries.Keys, s)
    requires dies == Dies(rw, inLinks, s) && (dies ==> "href" in obj.entries)
    modifies Owned(s)
    ensures dead == dies
    ensures !dead ==> InRange(rw, inLinks, obj, s, {}, t)
    decreases s, 1
  {
    var todo := obj.entries.Keys;
    dead, t := false, s;
    while todo != {}
      invariant InRange(rw, inLinks, obj, s, todo, t)
      invariant dies ==> "href" in todo
    {
      var key :| key in todo;
      dead, t := VisitKey(rw, obj, key, inLinks, s, todo, t, dies);
      if dead {
        return;
      }
      todo := todo - {key};
    }
  }

  /** One pass of the loop. */
  method VisitKey(rw: Rewriter, obj: GoMap, key: string, inLinks: bool, ghost s: Shape,
                  ghost todo: set<string>, ghost t: Shape, ghost dies: bool)
    returns (dead: bool, ghost t': Shape)
    requires s.ObjShape? && s.obj == obj && Tree(s) && key in todo
    requires dies == Dies(rw, inLinks, s)
    requires InRange(rw, inLinks, obj, s, todo, t)
    modifies Owned(s)
    ensures dead == (key == "href" && dies)
    ensures !dead ==> InRange(rw, inLinks, obj, s, todo - {key}, t')
    decreases s, 0
  {
    FieldOf(rw, s, key, inLinks);
    if key == "href" {
      dead, t' := VisitHref(rw, obj, inLinks, t);
    } else {
      dead := false;
      t' := VisitChild(rw, obj, key, Under(key, inLinks), t);
    }
    if key in t'.fields {
      FieldsPut(rw, inLinks, s, todo, t.fields, key, t'.fields[key]);
    } else {
      FieldsDrop(rw, inLinks, s, todo, t.fields, key);
    }
  }

  lemma {:induction false} ObjectRemoved(rw: Rewriter, j: Json, inLinks: bool)
    ensures j.Obj? ==> (Walk(rw, j, inLinks).Removed? <==> inLinks && DeadLink(rw, j.fields))
  {
  }

  lemma {:induction false} FieldOf(rw: Rewriter, s: Shape, k: string, inLinks: bool)
    requires s.ObjShape? && k in s.fields
    ensures k in Doc(s).fields && Doc(s).fields[k] == Doc(s.fields[k])
    ensures Field(rw, Doc(s), k, inLinks) ==
            if k == "href" then Href(rw, Doc(s.fields[k])) else Walk(rw, Doc(s.fields[k]), Under(k, inLinks))
  {
  }

  /** The branch for the key `href`. */
  method VisitHref(rw: Rewriter, obj: GoMap, inLinks: bool, ghost t: Shape)
    returns (dead: bool, ghost t': Shape)
    requires t.ObjShape? && "href" in t.fields && Tree(t) && Holds(VObj(obj), t)
    modifies obj
    ensures dead <==> inLinks && DeadHref(rw, Doc(t.fields["href"]))
    ensures Tree(t') && Holds(VObj(obj), t')
    ensures match Href(rw, Doc(t.fields["href"]))
      case Removed => t' == Without(t, "href")
      case Kept(j) => t' == With(t, "href", if j.Str? then Leaf(j) else t.fields["href"])
  {
    dead, t' := false, t;
    assert Holds(obj.entries["href"], t.fields["href"]);
    if obj.entries["href"].VStr? {
      assert t.fields["href"] == Leaf(Str(obj.entries["href"].s));
      match rw(obj.entries["href"].s) {
        case Unmappable =>
          t' := Drop(obj, "href", t);
          dead := inLinks;
        case Malformed =>
          t' := Drop(obj, "href", t);
        case Mapped(newUrl) =>
          t' := Put(obj, "href", VStr(newUrl), t, Leaf(Str(newUrl)));
      }
    }
  }

  /** The branch for any other key. */
  method VisitChild(rw: Rewriter, obj: GoMap, key: string, l: bool, ghost t: Shape)
    returns (ghost t': Shape)
    requires t.ObjShape? && key in t.fields && Tree(t) && Holds(VObj(obj), t)
    modifies obj, Owned(t.fields[key])
    ensures Tree(t') && Holds(VObj(obj), t')
    ensures match Walk(rw, Doc(t.fields[key]), l)
      case Removed => t' == Without(t, key)
      case Kept(_) =>
        && t'.ObjShape? && key in t'.fields && t' == With(t, key, t'.fields[key])
        && Walked(rw, l, t.fields[key], t'.fields[key])
    decreases t.fields[key], 5
  {
    var v, gone, shape := WalkEntry(rw, obj, key, l, t);
    if gone {
      t' := Drop(obj, key, t);
    } else {
      t' := Put(obj, key, v, t, shape);
    }
  }

  /** Walking the value of one entry leaves the other entries alone. */
  method WalkEntry(rw: Rewriter, obj: GoMap, key: string, l: bool, ghost t: Shape)
    returns (v: Value, gone: bool, ghost shape: Shape)
    requires t.ObjShape? && key in t.fields && Tree(t) && Holds(VObj(obj), t)
    modifies Owned(t.fields[key])
    ensures Others(key, t)
    ensures gone <==> Walk(rw, Doc(t.fields[key]), l).Removed?
    ensures !gone ==> Walked(rw, l, t.fields[key], shape) && Holds(v, shape)
    decreases t.fields[key], 4
  {
    v, gone, shape := WalkJson(rw, obj.entries[key], l, t.fields[key]);
    forall k | k in t.fields && k != key
      ensures Holds(obj.entries[k], t.fields[k])
    {
      assert old(Holds(obj.entries[k], t.fields[k]));
    }
  }

  ghost function Without(t: Shape, key: string): Shape
    requires t.ObjShape?
  {
    t.(fields := t.fields - {key})
  }

  ghost function With(t: Shape, key: string, shape: Shape): Shape
    requires t.ObjShape?
  {
    t.(fields := t.fields[key := shape])
  }

  /** Every entry but `key` holds its field of `t`. */
  ghost predicate Others(key: string, t: Shape)
    requires t.ObjShape? && Tree(t)
    reads Owned(t)
  {
    && t.obj.entries.Keys == t.fields.Keys
    && (forall k | k in t.fields && k != key :: Holds(t.obj.entries[k], t.fields[k]))
  }

  method Drop(obj: GoMap, key: string, ghost t: Shape) returns (ghost t': Shape)
    requires t.ObjShape? && t.obj == obj && key in t.fields && Tree(t) && Others(key, t)
    modifies obj
    ensures t' == Without(t, key) && Tree(t') && Holds(VObj(obj), t')
  {
    obj.entries := obj.entries - {key};
    t' := Without(t, key);
  }

  method Put(obj: GoMap, key: string, v: Value, ghost t: Shape, ghost shape: Shape) returns (ghost t': Shape)
    requires t.ObjShape? && t.obj == obj && key in t.fields && Tree(t) && Others(key, t)
    requires Tree(shape) && Owned(shape) <= Owned(t.fields[key]) && Holds(v, shape)
    modifies obj
    ensures t' == With(t, key, shape) && Tree(t') && Holds(VObj(obj), t')
  {
    obj.entries := obj.entries[key := v];
    t' := With(t, key, shape);
  }

  /** A visited field that is gone. */
  lemma {:induction false} FieldsDrop(
    rw: Rewriter, inLinks: bool, s: Shape, todo: set<string>, now: map<string, Shape>, key: string)
    requires s.ObjShape? && key in todo && Fields(rw, inLinks, s, todo, now)
    requires Field(rw, Doc(s), key, inLinks).Removed?
    ensures Fields(rw, inLinks, s, todo - {key}, now - {key})
  {
  }

  /** A visited field with its new shape. */
  lemma {:induction false} FieldsPut(
    rw: Rewriter, inLinks: bool, s: Shape, todo: set<string>, now: map<string, Shape>, key: string, shape: Shape)
    requires s.ObjShape? && key in todo && Fields(rw, inLinks, s, todo, now)
    requires FieldDone(rw, inLinks, s, key, shape)
    ensures Fields(rw, inLinks, s, todo - {key}, now[key := shape])
  {
  }

  lemma {:induction false} RangingEnds(rw: Rewriter, inLinks: bool, s: Shape, t: Shape)
    requires s.ObjShape? && Ranging(rw, inLinks, s, {}, t)
    requires !(inLinks && DeadLink(rw, Doc(s).fields))
    ensures Walked(rw, inLinks, s, t)
  {
    var out := Walk(rw, Doc(s), inLinks).value.fields;
    forall k
      ensures k in out <==> k in t.fields
      ensures k in t.fields ==> out[k] == Doc(t.fields[k])
    {
      if k in t.fields {
        assert FieldDone(rw, inLinks, s, k, t.fields[k]);
      }
    }
    assert out == Doc(t).fields;
  }

  method WalkArray(rw: Rewriter, elems: seq<Value>, inLinks: bool, ghost s: Shape)
    returns (r: Value, removed: bool, ghost s': Shape)
    requires Tree(s) && Holds(VArr(elems), s)
    modifies Owned(s)
    ensures removed <==> Walk(rw, Doc(s), inLinks).Removed?
    ensures !removed ==> Walked(rw, inLinks, s, s') && Holds(r, s')
    decreases s, 2
  {
    var outputList: seq<Value> := [];
    s' := ArrShape([], {});
    for i := 0 to |elems|
      invariant Gathered(rw, inLinks, s, i, s') && Holds(VArr(outputList), s')
      invariant forall k | i <= k < |elems| :: Holds(elems[k], s.elems[k])
    {
      outputList, s' := VisitElement(rw, elems, i, inLinks, outputList, s, s');
    }
    GatheredEnds(rw, inLinks, s, s');
    if |outputList| == 0 && |elems| != 0 {
      return VNull, true, s;
    }
    r, removed := VArr(outputList), false;
  }

  /** `t` is what has been gathered from the first `i` elements of `s`. */
  ghost predicate Gathered(rw: Rewriter, inLinks: bool, s: Shape, i: nat, t: Shape)
    requires s.ArrShape? && i <= |s.elems|
  {
    && t.ArrShape? && Tree(t) && t.owned <= s.owned
    && (forall k | i <= k < |s.elems| :: t.owned !! Owned(s.elems[k]))
    && Docs(t.elems) + WalkAll(rw, Docs(s.elems[i..]), inLinks) == WalkAll(rw, Docs(s.elems), inLinks)
  }

  /** One pass of the loop over an array. */
  method VisitElement(rw: Rewriter, elems: seq<Value>, i: nat, inLinks: bool, out: seq<Value>,
                      ghost s: Shape, ghost t: Shape)
    returns (out': seq<Value>, ghost t': Shape)
    requires s.ArrShape? && Tree(s) && |elems| == |s.elems| && i < |elems|
    requires forall k | i <= k < |elems| :: Holds(elems[k], s.elems[k])
    requires Gathered(rw, inLinks, s, i, t) && Holds(VArr(out), t)
    modifies Owned(s.elems[i])
    ensures forall k | i < k < |elems| :: Holds(elems[k], s.elems[k])
    ensures Gathered(rw, inLinks, s, i + 1, t') && Holds(VArr(out'), t')
    decreases s.elems[i], 4
  {
    var v, gone, shape := WalkJson(rw, elems[i], inLinks, s.elems[i]);
    assert Holds(VArr(out), t);
    out', t' := out, t;
    if gone {
      GatheredSkip(rw, inLinks, s, i, t);
    } else {
      GatheredMore(rw, inLinks, s, i, t, shape);
      out', t' := out + [v], Snoc(t, shape);
    }
  }

  ghost function Snoc(t: Shape, shape: Shape): Shape
    requires t.ArrShape?
  {
    ArrShape(t.elems + [shape], t.owned + Owned(shape))
  }

  lemma {:induction false} GatheredSkip(rw: Rewriter, inLinks: bool, s: Shape, i: nat, t: Shape)
    requires s.ArrShape? && Tree(s) && i < |s.elems| && Gathered(rw, inLinks, s, i, t)
    requires Walk(rw, Doc(s.elems[i]), inLinks).Removed?
    ensures Gathered(rw, inLinks, s, i + 1, t)
  {
    DocsAhead(rw, inLinks, s.elems, i);
    assert [] + WalkAll(rw, Docs(s.elems[i + 1..]), inLinks) == WalkAll(rw, Docs(s.elems[i + 1..]), inLinks);
  }

  lemma {:induction false} GatheredMore(rw: Rewriter, inLinks: bool, s: Shape, i: nat, t: Shape, shape: Shape)
    requires s.ArrShape? && Tree(s) && i < |s.elems| && Gathered(rw, inLinks, s, i, t)
    requires Walked(rw, inLinks, s.elems[i], shape)
    ensures Gathered(rw, inLinks, s, i + 1, Snoc(t, shape))
  {
    TreeSnoc(t, shape);
    GatheredDocs(rw, inLinks, s.elems, i, t.elems, shape);
  }

  lemma {:induction false} GatheredDocs(
    rw: Rewriter, inLinks: bool, elems: seq<Shape>, i: nat, gathered: seq<Shape>, shape: Shape)
    requires i < |elems| && Walk(rw, Doc(elems[i]), inLinks) == Kept(Doc(shape))
    ensures Docs(gathered + [shape]) + WalkAll(rw, Docs(elems[i + 1..]), inLinks) ==
            Docs(gathered) + WalkAll(rw, Docs(elems[i..]), inLinks)
  {
    DocsAhead(rw, inLinks, elems, i);
    DocsSnoc(gathered, shape);
    var docs, doc, w := Docs(gathered), Doc(shape), WalkAll(rw, Docs(elems[i + 1..]), inLinks);
    assert docs + ([doc] + w) == docs + [doc] + w;
  }

  lemma {:induction false} GatheredEnds(rw: Rewriter, inLinks: bool, s: Shape, t: Shape)
    requires s.ArrShape? && Gathered(rw, inLinks, s, |s.elems|, t)
    ensures |Docs(t.elems)| == |t.elems| && |Docs(s.elems)| == |s.elems|
    ensures Walk(rw, Doc(s), inLinks) == if t.elems == [] && s.elems != [] then Removed else Kept(Doc(t))
  {
    DocsLength(t.elems);
    DocsLength(s.elems);
    assert Docs(t.elems) + [] == Docs(t.elems);
  }

  lemma {:induction false} TreeSnoc(t: Shape, shape: Shape)
    requires t.ArrShape? && Tree(t) && Tree(shape) && t.owned !! Owned(shape)
    ensures Tree(Snoc(t, shape))
  {
    var elems := Snoc(t, shape).elems;
    forall k | 0 <= k < |elems|
      ensures elems[k] == if k < |t.elems| then t.elems[k] else shape
    {
    }
  }

  lemma {:induction false} DocsAhead(rw: Rewriter, inLinks: bool, elems: seq<Shape>, i: nat)
    requires i < |elems|
    ensures WalkAll(rw, Docs(elems[i..]), inLinks) ==
            Slot(Walk(rw, Doc(elems[i]), inLinks)) + WalkAll(rw, Docs(elems[i + 1..]), inLinks)
  {
    assert elems[i..][1..] == elems[i + 1..];
    assert Docs(elems[i..])[1..] == Docs(elems[i + 1..]);
  }

  lemma {:induction false} DocsLength(elems: seq<Shape>)
    ensures |Docs(elems)| == |elems|
  {
    if elems != [] {
      DocsLength(elems[1..]);
    }
  }

  lemma {:induction false} DocsSnoc(elems: seq<Shape>, last: Shape)
    ensures Docs(elems + [last]) == Docs(elems) + [Doc(last)]
  {
    if elems == [] {
      assert elems + [last] == [last];
    } else {
      assert (elems + [last])[1..] == elems[1..] + [last];
      DocsSnoc(elems[1..], last);
    }
  }
}
