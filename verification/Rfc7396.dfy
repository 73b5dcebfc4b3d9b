/** JSON Merge Patch as section 2 of RFC 7396 defines it, on meanings, and the difference it can express. */
module Rfc7396 {
  import opened CStrings
  import opened JsonTrees

  const Nothing := Atom(Null)

  /** MergePatch(Target, Patch). The target may be missing. */
  function MergePatch(target: Option<Doc>, patch: Doc): Doc
    decreases patch
  {
    match patch
    case Obj(changes) =>
      var base := FieldsOf(target);
      Obj(map k | k in base.Keys + changes.Keys && !(k in changes && changes[k] == Nothing) ::
            if k in changes then MergePatch(if k in base then Some(base[k]) else None, changes[k]) else base[k])
    case _ => patch
  }

  /** What is not an object counts as an empty one. */
  function FieldsOf(d: Option<Doc>): map<string, Doc> {
    if d.Some? && d.value.Obj? then d.value.fields else map[]
  }

  /** The patch that records how `to` differs from `from`; null stands for a missing member. */
  function Difference(from: Doc, to: Doc): Doc
    decreases from
  {
    match (from, to)
    case (Obj(f), Obj(g)) =>
      Obj(map k | k in f.Keys + g.Keys && !(k in f && k in g && f[k] == g[k]) ::
            if k !in g then Nothing else if k !in f then g[k] else Difference(f[k], g[k]))
    case _ => to
  }

  /** No object member anywhere below is null. Elements of arrays are not members. */
  predicate NullFree(d: Doc)
    decreases d
  {
    d.Obj? ==> forall k | k in d.fields :: d.fields[k] != Nothing && NullFree(d.fields[k])
  }

  /** The difference needs no null to say that a member *is* null. */
  predicate Expressible(from: Doc, to: Doc)
    decreases from
  {
    match (from, to)
    case (Obj(f), Obj(g)) =>
      forall k | k in g ::
        (k !in f ==> g[k] != Nothing && NullFree(g[k]))
        && (k in f && f[k] != g[k] ==> g[k] != Nothing && Expressible(f[k], g[k]))
    case _ => NullFree(to)
  }

  /** A patch on nothing reproduces itself exactly if it holds no nulls. */
  lemma {:induction false} OntoNothing(target: Option<Doc>, patch: Doc)
    requires target.Some? ==> !target.value.Obj?
    ensures MergePatch(target, patch) == patch <==> NullFree(patch)
    decreases patch
  {
    if patch.Obj? {
      var changes, r := patch.fields, MergePatch(target, patch).fields;
      forall k | k in changes && changes[k] != Nothing
        ensures k in r && (r[k] == changes[k] <==> NullFree(changes[k]))
      {
        OntoNothing(None, changes[k]);
      }
      if NullFree(patch) {
        assert r == changes;
      } else {
        var k :| k in changes && !(changes[k] != Nothing && NullFree(changes[k]));
        assert k !in r || r[k] != changes[k];
      }
    }
  }

  lemma DifferenceIsNull(from: Doc, to: Doc)
    ensures Difference(from, to) == Nothing <==> to == Nothing
  {
  }

  /** Applying the difference gives the target exactly when the difference can be expressed. */
  lemma {:induction false} MergeDifference(from: Doc, to: Doc)
    ensures MergePatch(Some(from), Difference(from, to)) == to <==> Expressible(from, to)
    decreases from
  {
    if from.Obj? && to.Obj? {
      forall k | k in from.fields && k in to.fields && from.fields[k] != to.fields[k]
        ensures MergePatch(Some(from.fields[k]), Difference(from.fields[k], to.fields[k])) == to.fields[k] <==>
                Expressible(from.fields[k], to.fields[k])
      {
        MergeDifference(from.fields[k], to.fields[k]);
      }
      MergeObjects(from.fields, to.fields);
    } else if !from.Obj? {
      OntoNothing(Some(from), to);
    }
  }

  lemma MergeObjects(f: map<string, Doc>, g: map<string, Doc>)
    requires forall k :: k in f && k in g && f[k] != g[k] ==>
        (MergePatch(Some(f[k]), Difference(f[k], g[k])) == g[k] <==> Expressible(f[k], g[k]))
    ensures MergePatch(Some(Obj(f)), Difference(Obj(f), Obj(g))) == Obj(g) <==> Expressible(Obj(f), Obj(g))
  {
    var changes := Difference(Obj(f), Obj(g)).fields;
    var r := MergePatch(Some(Obj(f)), Obj(changes)).fields;
    forall k | k in g && !(k in f && f[k] == g[k])
      ensures (k in r && r[k] == g[k]) <==> Fine(f, g, k)
    {
      if k in f {
        DifferenceIsNull(f[k], g[k]);
      } else {
        OntoNothing(None, g[k]);
      }
    }
    assert forall k :: k in f && k !in g ==> k !in r;
    assert forall k :: k in f && k in g && f[k] == g[k] ==> k in r && r[k] == g[k];
    assert forall k :: k in r ==> k in f || k in g;
    if Expressible(Obj(f), Obj(g)) {
      assert forall k :: k in g ==> k in r && r[k] == g[k];
      assert r == g;
    } else {
      var k :| k in g && !Fine(f, g, k);
      if k in f && f[k] == g[k] {
        assert Fine(f, g, k);
      }
      assert k !in r || r[k] != g[k];
    }
  }

  predicate Fine(f: map<string, Doc>, g: map<string, Doc>, k: string)
    requires k in g
  {
    (k !in f ==> g[k] != Nothing && NullFree(g[k]))
    && (k in f && f[k] != g[k] ==> g[k] != Nothing && Expressible(f[k], g[k]))
  }

  /** A target without null members can always be expressed. */
  lemma {:induction false} NullFreeExpressible(from: Doc, to: Doc)
    requires NullFree(to)
    ensures Expressible(from, to)
    decreases from
  {
    if from.Obj? && to.Obj? {
      forall k | k in to.fields && k in from.fields ensures Expressible(from.fields[k], to.fields[k]) {
        NullFreeExpressible(from.fields[k], to.fields[k]);
      }
    }
  }
}
