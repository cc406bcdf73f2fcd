/** The right-biased deep merge of configuration objects. */
module ConfigMerge {
  import opened Prelude

  type Object = map<string, Value>

  // ----- merging -------------------------------------------------------------------------------------------------

  /** `deep_merge`: the overlay wins, except that two objects under one key are merged. */
  function DeepMerge(base: Object, overlay: Object): (merged: Object)
    ensures merged.Keys == base.Keys + overlay.Keys
    ensures forall k :: k in base && k !in overlay ==> merged[k] == base[k]
    decreases Record(overlay)
  {
    map k | k in base.Keys + overlay.Keys ::
      if k !in overlay then base[k]
      else if k in base && base[k].Record? && overlay[k].Record? then Record(DeepMerge(base[k].fields, overlay[k].fields))
      else overlay[k]
  }

  /** The loop: it starts from the base and sets one key of the overlay after the other. */
  method MergeInPlace(base: Object, overlay: Object) returns (result: Object)
    ensures result == DeepMerge(base, overlay)
    decreases Record(overlay)
  {
    result := base;
    var left := overlay.Keys;
    while left != {}
      invariant left <= overlay.Keys && result.Keys == base.Keys + (overlay.Keys - left)
      invariant forall k :: k in result ==> result[k] == if k in left then base[k] else DeepMerge(base, overlay)[k]
      decreases left
    {
      var key :| key in left;
      if key in result && result[key].Record? && overlay[key].Record? {
        var merged := MergeInPlace(result[key].fields, overlay[key].fields);
        result := result[key := Record(merged)];
      } else {
        result := result[key := overlay[key]];
      }
      left := left - {key};
    }
  }

  // ----- associativity ---------------------------------------------------------------------------------------------

  /** Everything an object has is replaced when it is merged under another. */
  predicate Covered(a: Object, c: Object)
    decreases Record(a)
  {
    forall k :: k in a ==> k in c && (a[k].Record? && c[k].Record? ==> Covered(a[k].fields, c[k].fields))
  }

  /** No object of a that b hides behind another kind of value comes back, uncovered, through an object of c. */
  predicate NothingResurfaces(a: Object, b: Object, c: Object)
    decreases Record(a)
  {
    forall k :: k in a && k in b && k in c && a[k].Record? && c[k].Record? ==>
      if b[k].Record? then NothingResurfaces(a[k].fields, b[k].fields, c[k].fields) else Covered(a[k].fields, c[k].fields)
  }

  lemma {:induction false} CoveredIff(a: Object, c: Object)
    ensures DeepMerge(a, c) == c <==> Covered(a, c)
    decreases Record(a)
  {
    forall k | k in a && k in c && a[k].Record? && c[k].Record?
      ensures DeepMerge(a[k].fields, c[k].fields) == c[k].fields <==> Covered(a[k].fields, c[k].fields)
    {
      CoveredIff(a[k].fields, c[k].fields);
    }
    var merged := DeepMerge(a, c);
    if merged == c {
      forall k | k in a ensures k in c && (a[k].Record? && c[k].Record? ==> Covered(a[k].fields, c[k].fields)) {
        assert k in merged && merged[k] == c[k];
      }
    }
    if Covered(a, c) {
      forall k | k in merged ensures k in c && merged[k] == c[k] {
      }
    }
  }

  /** Both groupings agree at one key exactly when nothing resurfaces there. */
  lemma GroupingsAtKey(a: Object, b: Object, c: Object, k: string)
    requires k in a || k in b || k in c
    requires k in a && k in b && k in c && a[k].Record? && b[k].Record? && c[k].Record? ==>
               (DeepMerge(DeepMerge(a[k].fields, b[k].fields), c[k].fields) == DeepMerge(a[k].fields, DeepMerge(b[k].fields, c[k].fields))
                <==> NothingResurfaces(a[k].fields, b[k].fields, c[k].fields))
    ensures DeepMerge(DeepMerge(a, b), c)[k] == DeepMerge(a, DeepMerge(b, c))[k] <==>
            (k in a && k in b && k in c && a[k].Record? && c[k].Record? ==>
               if b[k].Record? then NothingResurfaces(a[k].fields, b[k].fields, c[k].fields) else Covered(a[k].fields, c[k].fields))
  {
    if k in a && k in c && a[k].Record? && c[k].Record? {
      CoveredIff(a[k].fields, c[k].fields);
    }
    hide Covered, NothingResurfaces;
  }

  /** Deep merge associates exactly when nothing resurfaces. */
  lemma {:induction false} AssociativeIff(a: Object, b: Object, c: Object)
    ensures DeepMerge(DeepMerge(a, b), c) == DeepMerge(a, DeepMerge(b, c)) <==> NothingResurfaces(a, b, c)
    decreases Record(a)
  {
    var left, right := DeepMerge(DeepMerge(a, b), c), DeepMerge(a, DeepMerge(b, c));
    forall k | k in left
      ensures left[k] == right[k] <==>
              (k in a && k in b && k in c && a[k].Record? && c[k].Record? ==>
                 if b[k].Record? then NothingResurfaces(a[k].fields, b[k].fields, c[k].fields) else Covered(a[k].fields, c[k].fields))
    {
      if k in a && k in b && k in c && a[k].Record? && b[k].Record? && c[k].Record? {
        AssociativeIff(a[k].fields, b[k].fields, c[k].fields);
      }
      GroupingsAtKey(a, b, c, k);
    }
    assert left.Keys == right.Keys;
    hide DeepMerge, Covered;
  }

  /** The smallest failure: an object, then a plain value, then an object under one key. */
  lemma ObjectScalarObject(x: Value)
    ensures var a, b, c := map["k" := Record(map["x" := x])], map["k" := Null], map["k" := Record(map[])];
            DeepMerge(DeepMerge(a, b), c) != DeepMerge(a, DeepMerge(b, c))
  {
    var a: Object, b: Object, c: Object := map["k" := Record(map["x" := x])], map["k" := Null], map["k" := Record(map[])];
    AssociativeIff(a, b, c);
    hide DeepMerge;
    var inner: Object := map["x" := x];
    assert "x" in inner && !Covered(inner, map[]);
    assert a["k"].fields == inner && c["k"].fields == map[];
    assert !NothingResurfaces(a, b, c);
  }

  // ----- folding ---------------------------------------------------------------------------------------------------

  /** Nothing is an object in one and something else in the other. */
  predicate SameShape(a: Object, b: Object)
    decreases Record(a)
  {
    forall k :: k in a && k in b ==> (a[k].Record? <==> b[k].Record?) && (a[k].Record? && b[k].Record? ==> SameShape(a[k].fields, b[k].fields))
  }

  lemma {:induction false} SameShapeSymmetric(a: Object, b: Object)
    requires SameShape(a, b)
    ensures SameShape(b, a)
    decreases Record(a)
  {
    forall k | k in a && k in b && a[k].Record? ensures SameShape(b[k].fields, a[k].fields) {
      SameShapeSymmetric(a[k].fields, b[k].fields);
    }
  }

  lemma {:induction false} SameShapeMerge(a: Object, b: Object, c: Object)
    requires SameShape(a, b) && SameShape(a, c) && SameShape(b, c)
    ensures SameShape(DeepMerge(a, b), c)
    decreases Record(a)
  {
    var merged := DeepMerge(a, b);
    forall k | k in merged && k in c
      ensures (merged[k].Record? <==> c[k].Record?) && (merged[k].Record? && c[k].Record? ==> SameShape(merged[k].fields, c[k].fields))
    {
      if k in a && k in b && a[k].Record? && b[k].Record? && c[k].Record? {
        SameShapeMerge(a[k].fields, b[k].fields, c[k].fields);
      }
    }
  }

  lemma {:induction false} SameShapeAssociates(a: Object, b: Object, c: Object)
    requires SameShape(a, b) && SameShape(b, c)
    ensures NothingResurfaces(a, b, c)
    decreases Record(a)
  {
    forall k | k in a && k in b && k in c && a[k].Record? && b[k].Record? && c[k].Record?
      ensures NothingResurfaces(a[k].fields, b[k].fields, c[k].fields)
    {
      SameShapeAssociates(a[k].fields, b[k].fields, c[k].fields);
    }
  }

  /** Merging objects one after the other. */
  function Fold(start: Object, objects: seq<Object>): Object {
    if objects == [] then start else DeepMerge(Fold(start, objects[..|objects| - 1]), objects[|objects| - 1])
  }

  ghost predicate NoConflict(objects: seq<Object>) {
    forall i, j :: 0 <= i < j < |objects| ==> SameShape(objects[i], objects[j])
  }

  lemma MergeNothing(a: Object)
    ensures DeepMerge(map[], a) == a && DeepMerge(a, map[]) == a
  {
  }

  lemma {:induction false} SameShapeFold(start: Object, objects: seq<Object>, x: Object)
    requires SameShape(start, x)
    requires forall i :: 0 <= i < |objects| ==> SameShape(start, objects[i]) && SameShape(objects[i], x)
    requires NoConflict(objects)
    ensures SameShape(Fold(start, objects), x)
  {
    if objects != [] {
      var before, last := objects[..|objects| - 1], objects[|objects| - 1];
      SameShapeFold(start, before, x);
      SameShapeFold(start, before, last);
      SameShapeMerge(Fold(start, before), last, x);
    }
  }

  /** Without conflicts, merging a folded list is folding on. */
  lemma {:induction false} FoldAssociates(start: Object, objects: seq<Object>)
    requires forall i :: 0 <= i < |objects| ==> SameShape(start, objects[i])
    requires NoConflict(objects)
    ensures Fold(start, objects) == DeepMerge(start, Fold(map[], objects))
  {
    hide SameShape, DeepMerge, NothingResurfaces;
    if objects == [] {
      MergeNothing(start);
    } else {
      var before, last := objects[..|objects| - 1], objects[|objects| - 1];
      FoldAssociates(start, before);
      EmptyShape(last);
      forall i | 0 <= i < |before| ensures SameShape(map[], before[i]) {
        EmptyShape(before[i]);
      }
      SameShapeFold(map[], before, last);
      EmptyShape(start);
      SameShapeStart(start, before);
      SameShapeAssociates(start, Fold(map[], before), last);
      AssociativeIff(start, Fold(map[], before), last);
    }
  }

  lemma EmptyShape(a: Object)
    ensures SameShape(map[], a) && SameShape(a, map[])
  {
  }

  lemma {:induction false} SameShapeStart(start: Object, objects: seq<Object>)
    requires forall i :: 0 <= i < |objects| ==> SameShape(start, objects[i])
    requires NoConflict(objects)
    ensures SameShape(start, Fold(map[], objects))
  {
    hide SameShape, DeepMerge;
    EmptyShape(start);
    forall i | 0 <= i < |objects| ensures SameShape(map[], objects[i]) && SameShape(objects[i], start) {
      EmptyShape(objects[i]);
      SameShapeSymmetric(start, objects[i]);
    }
    SameShapeFold(map[], objects, start);
    SameShapeSymmetric(Fold(map[], objects), start);
  }

  lemma {:induction false} FoldConcat(start: Object, a: seq<Object>, b: seq<Object>)
    ensures Fold(start, a + b) == Fold(Fold(start, a), b)
  {
    hide DeepMerge;
    if b == [] {
      assert a + b == a;
    } else {
      FoldConcat(start, a, b[..|b| - 1]);
      assert (a + b)[..|a + b| - 1] == a + b[..|b| - 1];
    }
  }
}
