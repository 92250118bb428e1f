/**
  From a document to the heap and back (proxy/hostrewriter.go): what the decoder builds is a
  tree of new objects, which is all that the walk in place asks for.
 */
module JsonDecode {
  import opened Results
  import opened JsonWalk
  import opened JsonLaws

  /** The decoder: every object of the document becomes a new one on the heap. */
  method Decode(j: Json) returns (v: Value, ghost s: Shape)
    ensures fresh(Owned(s)) && Tree(s) && Holds(v, s) && Doc(s) == j
    decreases j, 1
  {
    match j {
      case Obj(fields) =>
        var entries;
        ghost var shapes, owned;
        entries, shapes, owned := DecodeFields(j);
        var obj := new GoMap(entries);
        v, s := VObj(obj), ObjShape(obj, shapes, owned + {obj});
        assert Doc(s).fields == fields;
      case Arr(elems) =>
        var values;
        ghost var shapes, owned;
        values, shapes, owned := DecodeAll(j);
        v, s := VArr(values), ArrShape(shapes, owned);
        DocsAre(shapes, elems);
      case _ =>
        v, s := Scalar(j), Leaf(j);
    }
  }

  /** The fields in any order. */
  method DecodeFields(j: Json)
    returns (entries: map<string, Value>, ghost shapes: map<string, Shape>, ghost owned: set<GoMap>)
    requires j.Obj?
    ensures fresh(owned) && entries.Keys == shapes.Keys == j.fields.Keys
    ensures forall k | k in shapes :: Decoded(entries[k], shapes[k], owned, j.fields[k])
    ensures forall k, l | k in shapes && l in shapes && k != l :: Owned(shapes[k]) !! Owned(shapes[l])
    decreases j, 0
  {
    entries, shapes, owned := map[], map[], {};
    var todo := j.fields.Keys;
    while todo != {}
      invariant todo <= j.fields.Keys && entries.Keys == shapes.Keys == j.fields.Keys - todo && fresh(owned)
      invariant forall k | k in shapes :: Decoded(entries[k], shapes[k], owned, j.fields[k])
      invariant forall k, l | k in shapes && l in shapes && k != l :: Owned(shapes[k]) !! Owned(shapes[l])
    {
      var key :| key in todo;
      var v;
      ghost var s;
      v, s := Decode(j.fields[key]);
      todo := todo - {key};
      entries, shapes, owned := entries[key := v], shapes[key := s], owned + Owned(s);
    }
  }

  method DecodeAll(j: Json) returns (values: seq<Value>, ghost shapes: seq<Shape>, ghost owned: set<GoMap>)
    requires j.Arr?
    ensures fresh(owned) && |values| == |shapes| == |j.elems|
    ensures forall i | 0 <= i < |shapes| :: Decoded(values[i], shapes[i], owned, j.elems[i])
    ensures forall i, k | 0 <= i < k < |shapes| :: Owned(shapes[i]) !! Owned(shapes[k])
    decreases j, 0
  {
    values, shapes, owned := [], [], {};
    for n := 0 to |j.elems|
      invariant |values| == |shapes| == n && fresh(owned)
      invariant forall i | 0 <= i < n :: Decoded(values[i], shapes[i], owned, j.elems[i])
      invariant forall i, k | 0 <= i < k < n :: Owned(shapes[i]) !! Owned(shapes[k])
    {
      var v;
      ghost var s;
      v, s := Decode(j.elems[n]);
      values, shapes, owned := values + [v], shapes + [s], owned + Owned(s);
    }
  }

  /** The value holds the part of the document, in some of the new objects. */
  ghost predicate Decoded(v: Value, s: Shape, owned: set<GoMap>, j: Json)
    reads Owned(s)
  {
    Tree(s) && Owned(s) <= owned && Holds(v, s) && Doc(s) == j
  }

  lemma {:induction false} DocsAre(shapes: seq<Shape>, elems: seq<Json>)
    requires |shapes| == |elems| && forall i | 0 <= i < |shapes| :: Doc(shapes[i]) == elems[i]
    ensures Docs(shapes) == elems
    decreases shapes
  {
    if shapes != [] {
      DocsAre(shapes[1..], elems[1..]);
    }
  }

  /** The whole of `Rewrite` for a body that is JSON: decoded, walked in place outside links, and read back. */
  method RewriteDocument(rw: Rewriter, j: Json) returns (out: Rewritten, ghost s: Shape)
    ensures out.NewBody? && Tree(s) && Holds(out.value, s)
    ensures Walk(rw, j, false) == Kept(Doc(s))
  {
    var v;
    ghost var t;
    v, t := Decode(j);
    out, s := Rewrite(rw, Document(v), t);
  }
}
