/** Generating a merge patch and merging it: exactly when that gives the target. */
module JsonMergeRoundTrip {
  import opened CStrings
  import opened JsonTrees
  import opened MergeSort
  import opened JsonCompare
  import opened JsonMergePatch
  import Rfc7396

  // ---------- the exact condition ----------

  /** `doc` after merging what was generated, if anything was. */
  function After(doc: Json, patch: Option<Json>, cs: bool): Json {
    if patch == None then doc else MergeTree(Some(doc), patch.value, cs)
  }

  /**
   What has to hold of two trees for the patch generated from the first to the second, with names sorted in `mode`, to
   lead from the one to the other when it is merged in mode `cs`. Whatever replaces something that is not an object must
   have no null members; objects are walked in step.
   */
  predicate Arrives(from: Json, to: Json, mode: bool, cs: bool)
    decreases Size(from), 0, 0
  {
    if !from.Object? || !to.Object? then Rfc7396.NullFree(Meaning(to, cs))
    else
      SortedSize(from.members, mode);
      WalkArrives(Sort(from.members, mode), Sort(to.members, mode), mode, cs)
  }

  predicate WalkArrives(s: seq<Member<Json>>, t: seq<Member<Json>>, mode: bool, cs: bool)
    decreases MembersSize(s), 2, |s| + |t|
  {
    if s == [] && t == [] then true
    else if s != [] && (t == [] || Less(s[0].key, t[0].key)) then WalkArrives(s[1..], t, mode, cs)
    else if s == [] || s[0].key != t[0].key then AddArrives(s, t[0], cs) && WalkArrives(s, t[1..], mode, cs)
    else PairArrives(s[0].value, t[0].value, mode, cs) && WalkArrives(s[1..], t[1..], mode, cs)
  }

  /** The member is added before none of that name is removed, and holds no nulls. */
  predicate AddArrives(s: seq<Member<Json>>, m: Member<Json>, cs: bool) {
    KeyIndex(s, m.key, cs) == |s| && m.value != Null && Rfc7396.NullFree(Meaning(m.value, cs))
  }

  /** Values that compare_json calls equal are, and the patch for others arrives. */
  predicate PairArrives(v: Json, w: Json, mode: bool, cs: bool)
    decreases Size(v), 1, 0
  {
    if JsonEqual(v, w, mode) then Meaning(v, cs) == Meaning(w, cs)
    else
      LeftSize(v, w, mode);
      w != Null && Arrives(Left(v, w, mode), Left(w, v, mode), false, cs)
  }

  // ---------- merging along the walk ----------

  lemma MergeHead(base: seq<Member<Json>>, c: Member<Json>, rest: seq<Member<Json>>, cs: bool)
    ensures MergeMembers(base, [c] + rest, cs) == MergeMembers(MergeMember(base, c.key, c.value, cs), rest, cs)
  {
    assert ([c] + rest)[1..] == rest;
  }

  /** A name that `t` does not have: its member goes if `s` has one, and stays otherwise. */
  lemma {:induction false} Untouched(base: seq<Member<Json>>, s: seq<Member<Json>>, t: seq<Member<Json>>, mode: bool, k: string, cs: bool)
    returns (r: map<string, Doc>)
    requires DistinctUnder(base, cs) && DistinctUnder(s, cs) && k !in Fields(t, cs)
    ensures r == Fields(MergeMembers(base, GenerateMembers(s, t, mode), cs), cs)
    ensures k in r <==> k in Fields(base, cs) && k !in Fields(s, cs)
    ensures k in r ==> r[k] == Fields(base, cs)[k]
    decreases |s| + |t|, 0
  {
    if s == [] && t == [] {
      r := Fields(base, cs);
    } else if s != [] && (t == [] || Less(s[0].key, t[0].key)) {
      r := UntouchedStep(base, Member(s[0].key, Null), s[1..], t, mode, k, cs);
      TailDistinct(s, cs);
    } else if s == [] || s[0].key != t[0].key {
      r := UntouchedStep(base, Member(t[0].key, t[0].value), s, t[1..], mode, k, cs);
    } else {
      TailDistinct(s, cs);
      var pair := PairPatch(t[0].key, s[0].value, t[0].value, mode);
      if pair == [] {
        r := Untouched(base, s[1..], t[1..], mode, k, cs);
        assert [] + GenerateMembers(s[1..], t[1..], mode) == GenerateMembers(s[1..], t[1..], mode);
      } else {
        assert pair == [Member(t[0].key, pair[0].value)];
        r := UntouchedStep(base, pair[0], s[1..], t[1..], mode, k, cs);
      }
    }
  }

  lemma {:induction false} UntouchedStep(base: seq<Member<Json>>, c: Member<Json>, s: seq<Member<Json>>, t: seq<Member<Json>>, mode: bool, k: string, cs: bool)
    returns (r: map<string, Doc>)
    requires DistinctUnder(base, cs) && DistinctUnder(s, cs) && k !in Fields(t, cs)
    requires c.value == Null || Norm(cs, c.key) != k
    ensures r == Fields(MergeMembers(base, [c] + GenerateMembers(s, t, mode), cs), cs)
    ensures k in r <==> k in Fields(base, cs) && k !in Fields(s, cs) && Norm(cs, c.key) != k
    ensures k in r ==> r[k] == Fields(base, cs)[k]
    decreases |s| + |t|, 1
  {
    var next := MergeMember(base, c.key, c.value, cs);
    MergeMemberFields(base, c.key, c.value, cs);
    MergeHead(base, c, GenerateMembers(s, t, mode), cs);
    r := Untouched(next, s, t, mode, k, cs);
  }

  lemma TailDistinct(s: seq<Member<Json>>, cs: bool)
    requires DistinctUnder(s, cs) && s != []
    ensures DistinctUnder(s[1..], cs) && Norm(cs, s[0].key) !in Fields(s[1..], cs)
  {
    assert forall i :: 0 <= i < |s| - 1 ==> s[1..][i] == s[i + 1];
    FieldsLookup(s[1..], s[0].key, cs);
  }

  // ---------- the theorem ----------

  /** `f` has everything `g` has. */
  predicate Reached(f: map<string, Doc>, g: map<string, Doc>) {
    forall k :: k in g ==> k in f && f[k] == g[k]
  }

  /** The object part way through: members in `s` are still the old ones, and what is to be added is not there. */
  predicate PartWay(base: map<string, Doc>, s: map<string, Doc>, t: map<string, Doc>) {
    && (forall k :: k in s ==> k in base && base[k] == s[k])
    && (forall k :: k in t && k !in s ==> k !in base)
  }

  /** The two differ at `k` at most. */
  ghost predicate SameElse(f: map<string, Doc>, g: map<string, Doc>, k: string) {
    forall x :: x != k ==> (x in f <==> x in g) && (x in f ==> f[x] == g[x])
  }

  lemma RemovedPartWay(b: map<string, Doc>, b': map<string, Doc>, s: map<string, Doc>, t: map<string, Doc>, k: string, v: Doc)
    requires k !in s && b' == b - {k}
    ensures PartWay(b, s[k := v], t) ==> PartWay(b', s, t)
  {
  }

  lemma AddedPartWay(b: map<string, Doc>, b': map<string, Doc>, s: map<string, Doc>, t: map<string, Doc>, k: string, w: Doc)
    requires k !in t && k !in s && SameElse(b, b', k)
    ensures PartWay(b, s, t[k := w]) ==> k !in b && PartWay(b', s, t)
  {
    if PartWay(b, s, t[k := w]) {
      assert k in t[k := w];
      assert forall x :: x in s ==> x in b && x != k;
      assert forall x :: x in t ==> x in t[k := w] && x != k;
    }
  }

  lemma PairPartWay(b: map<string, Doc>, b': map<string, Doc>, s: map<string, Doc>, t: map<string, Doc>, k: string, v: Doc, w: Doc)
    requires k !in t && k !in s && SameElse(b, b', k)
    ensures PartWay(b, s[k := v], t[k := w]) ==> k in b && b[k] == v && PartWay(b', s, t)
  {
    if PartWay(b, s[k := v], t[k := w]) {
      assert k in s[k := v];
      assert forall x :: x in s ==> x in s[k := v] && x != k;
      assert forall x :: x in t ==> x in t[k := w] && x != k;
    }
  }

  /** Merging leaves distinct names, and from part way it reaches every member of `t` exactly when every step is fine. */
  predicate Walked(base: seq<Member<Json>>, r: seq<Member<Json>>, s: seq<Member<Json>>, t: seq<Member<Json>>, mode: bool, cs: bool) {
    && DistinctMembers(r, cs)
    && (PartWay(Fields(base, cs), Fields(s, cs), Fields(t, cs)) ==>
          (Reached(Fields(r, cs), Fields(t, cs)) <==> WalkArrives(s, t, mode, cs)))
  }

  lemma {:induction false} WalkMerges(base: seq<Member<Json>>, s: seq<Member<Json>>, t: seq<Member<Json>>, mode: bool, cs: bool)
    returns (r: seq<Member<Json>>)
    requires DistinctMembers(base, cs) && DistinctMembers(s, cs) && DistinctMembers(t, cs)
    ensures r == MergeMembers(base, GenerateMembers(s, t, mode), cs) && Walked(base, r, s, t, mode, cs)
    decreases MembersSize(s), 2, |s| + |t|, 1
  {
    if s == [] && t == [] {
      r := base;
    } else if s != [] && (t == [] || Less(s[0].key, t[0].key)) {
      r := RemovalMerges(base, s, t, mode, cs);
    } else if s == [] || s[0].key != t[0].key {
      r := AdditionMerges(base, s, t, mode, cs);
    } else {
      r := PairMerges(base, s, t, mode, cs);
    }
  }

  lemma Tail(s: seq<Member<Json>>, cs: bool) returns (k: string, v: Doc)
    requires DistinctMembers(s, cs) && s != []
    ensures k == Norm(cs, s[0].key) && v == Meaning(s[0].value, cs)
    ensures DistinctMembers(s[1..], cs) && DistinctSiblings(s[0].value, cs)
    ensures k !in Fields(s[1..], cs) && Fields(s, cs) == Fields(s[1..], cs)[k := v]
  {
    TailDistinct(s, cs);
    assert s[0] in s;
    k, v := Norm(cs, s[0].key), Meaning(s[0].value, cs);
  }

  lemma {:induction false} RemovalMerges(base: seq<Member<Json>>, s: seq<Member<Json>>, t: seq<Member<Json>>, mode: bool, cs: bool)
    returns (r: seq<Member<Json>>)
    requires DistinctMembers(base, cs) && DistinctMembers(s, cs) && DistinctMembers(t, cs)
    requires s != [] && (t == [] || Less(s[0].key, t[0].key))
    ensures r == MergeMembers(base, GenerateMembers(s, t, mode), cs) && Walked(base, r, s, t, mode, cs)
    decreases MembersSize(s), 2, |s| + |t|, 0
  {
    var k, v := Tail(s, cs);
    var c := Member(s[0].key, Null);
    MergeMemberFields(base, c.key, Null, cs);
    MergeMemberDistinct(base, c.key, Null, cs);
    MergeHead(base, c, GenerateMembers(s[1..], t, mode), cs);
    var next := MergeMember(base, c.key, Null, cs);
    r := WalkMerges(next, s[1..], t, mode, cs);
    RemovedPartWay(Fields(base, cs), Fields(next, cs), Fields(s[1..], cs), Fields(t, cs), k, v);
  }

  lemma {:induction false} AdditionMerges(base: seq<Member<Json>>, s: seq<Member<Json>>, t: seq<Member<Json>>, mode: bool, cs: bool)
    returns (r: seq<Member<Json>>)
    requires DistinctMembers(base, cs) && DistinctMembers(s, cs) && DistinctMembers(t, cs)
    requires t != [] && (s == [] || (!Less(s[0].key, t[0].key) && s[0].key != t[0].key))
    ensures r == MergeMembers(base, GenerateMembers(s, t, mode), cs) && Walked(base, r, s, t, mode, cs)
    decreases MembersSize(s), 2, |s| + |t|, 0
  {
    var k, w := Tail(t, cs);
    var next := AddedMember(base, t[0], cs);
    MergeHead(base, t[0], GenerateMembers(s, t[1..], mode), cs);
    r := WalkMerges(next, s, t[1..], mode, cs);
    var f := Untouched(next, s, t[1..], mode, k, cs);
    FieldsLookup(s, t[0].key, cs);
    if k !in Fields(s, cs) {
      AddedPartWay(Fields(base, cs), Fields(next, cs), Fields(s, cs), Fields(t[1..], cs), k, w);
    }
    ReachedMore(f, Fields(t[1..], cs), k, w);
    assert [Member(t[0].key, t[0].value)] == [t[0]];
  }

  lemma ReachedMore(f: map<string, Doc>, g: map<string, Doc>, k: string, w: Doc)
    requires k !in g
    ensures Reached(f, g[k := w]) <==> k in f && f[k] == w && Reached(f, g)
  {
    if Reached(f, g[k := w]) {
      assert k in g[k := w];
      forall x | x in g ensures x in f && f[x] == g[x] {
        assert x in g[k := w];
      }
    }
  }

  /** Merging a value in where there is none. */
  lemma AddedMember(base: seq<Member<Json>>, m: Member<Json>, cs: bool) returns (next: seq<Member<Json>>)
    requires DistinctMembers(base, cs) && DistinctSiblings(m.value, cs)
    ensures next == MergeMember(base, m.key, m.value, cs) && DistinctMembers(next, cs)
    ensures SameElse(Fields(base, cs), Fields(next, cs), Norm(cs, m.key))
    ensures Norm(cs, m.key) in Fields(next, cs) <==> m.value != Null
    ensures Norm(cs, m.key) !in Fields(base, cs) && m.value != Null ==>
              (Fields(next, cs)[Norm(cs, m.key)] == Meaning(m.value, cs) <==> Rfc7396.NullFree(Meaning(m.value, cs)))
  {
    next := MergeMember(base, m.key, m.value, cs);
    FieldsLookup(base, m.key, cs);
    var before := Present(base, m.key, cs);
    if m.value != Null {
      assert before.Some? ==> base[KeyIndex(base, m.key, cs)] in base;
      MergeTreeRefines(before, m.value, cs);
      if before == None {
        Rfc7396.OntoNothing(None, Meaning(m.value, cs));
      }
    }
    MergeMemberFields(base, m.key, m.value, cs);
    MergeMemberDistinct(base, m.key, m.value, cs);
  }

  lemma {:induction false} PairMerges(base: seq<Member<Json>>, s: seq<Member<Json>>, t: seq<Member<Json>>, mode: bool, cs: bool)
    returns (r: seq<Member<Json>>)
    requires DistinctMembers(base, cs) && DistinctMembers(s, cs) && DistinctMembers(t, cs)
    requires s != [] && t != [] && s[0].key == t[0].key
    ensures r == MergeMembers(base, GenerateMembers(s, t, mode), cs) && Walked(base, r, s, t, mode, cs)
    decreases MembersSize(s), 2, |s| + |t|, 0
  {
    var name := t[0].key;
    LessTotal(name, name);
    var k, v := Tail(s, cs);
    var _, w := Tail(t, cs);
    var next := PairMember(base, name, s[0].value, t[0].value, mode, cs);
    r := WalkMerges(next, s[1..], t[1..], mode, cs);
    var f := Untouched(next, s[1..], t[1..], mode, k, cs);
    PairPartWay(Fields(base, cs), Fields(next, cs), Fields(s[1..], cs), Fields(t[1..], cs), k, v, w);
    ReachedMore(f, Fields(t[1..], cs), k, w);
    PairUnfold(base, s, t, mode, cs);
  }

  lemma PairUnfold(base: seq<Member<Json>>, s: seq<Member<Json>>, t: seq<Member<Json>>, mode: bool, cs: bool)
    requires s != [] && t != [] && s[0].key == t[0].key
    ensures var next := MergeMembers(base, PairPatch(t[0].key, s[0].value, t[0].value, mode), cs);
      MergeMembers(base, GenerateMembers(s, t, mode), cs) == MergeMembers(next, GenerateMembers(s[1..], t[1..], mode), cs)
  {
    LessTotal(s[0].key, t[0].key);
    var pair, rest := PairPatch(t[0].key, s[0].value, t[0].value, mode), GenerateMembers(s[1..], t[1..], mode);
    assert GenerateMembers(s, t, mode) == pair + rest;
    if pair == [] {
      assert pair + rest == rest;
    } else {
      MergeHead(base, pair[0], rest, cs);
      MergeHead(base, pair[0], [], cs);
      assert pair == [pair[0]] + [];
    }
  }

  /** Two members of one name: what was generated for them is merged. */
  lemma {:induction false} PairMember(base: seq<Member<Json>>, name: string, v: Json, w: Json, mode: bool, cs: bool)
    returns (next: seq<Member<Json>>)
    requires DistinctMembers(base, cs) && DistinctSiblings(v, cs) && DistinctSiblings(w, cs)
    ensures next == MergeMembers(base, PairPatch(name, v, w, mode), cs) && DistinctMembers(next, cs)
    ensures SameElse(Fields(base, cs), Fields(next, cs), Norm(cs, name))
    ensures var k, f, g := Norm(cs, name), Fields(base, cs), Fields(next, cs);
      k in f && f[k] == Meaning(v, cs) ==> ((k in g && g[k] == Meaning(w, cs)) <==> PairArrives(v, w, mode, cs))
    decreases Size(v), 1, 0, 0
  {
    FieldsLookup(base, name, cs);
    if JsonEqual(v, w, mode) {
      next := base;
    } else {
      var v', w' := Left(v, w, mode), Left(w, v, mode);
      LeftSize(v, w, mode);
      LeftMeans(v, w, mode, cs);
      LeftMeans(w, v, mode, cs);
      var target := Present(base, name, cs);
      assert target.Some? ==> base[KeyIndex(base, name, cs)] in base;
      var patch := TreeMerges(target, v', w', false, cs);
      if patch == None {
        next := base;
      } else {
        next := MergeMember(base, name, patch.value, cs);
        MergeMemberFields(base, name, patch.value, cs);
        MergeMemberDistinct(base, name, patch.value, cs);
        MergeHead(base, Member(name, patch.value), [], cs);
        assert [Member(name, patch.value)] + [] == [Member(name, patch.value)];
      }
    }
  }

  /** Merging the patch leaves distinct names, and leads from anything that means `from` to `to` exactly when it arrives. */
  lemma {:induction false} TreeMerges(target: Option<Json>, from: Json, to: Json, mode: bool, cs: bool) returns (patch: Option<Json>)
    requires DistinctSiblings(from, cs) && DistinctSiblings(to, cs) && (target.Some? ==> DistinctSiblings(target.value, cs))
    ensures patch == GenerateTree(from, to, mode)
    ensures patch == None ==> to.Object?
    ensures patch == Some(Null) <==> to == Null
    ensures patch.Some? ==> DistinctSiblings(MergeTree(target, patch.value, cs), cs)
    ensures target.Some? && Meaning(target.value, cs) == Meaning(from, cs) ==>
              (Meaning(After(target.value, patch, cs), cs) == Meaning(to, cs) <==> Arrives(from, to, mode, cs))
    decreases Size(from), 0, 0, 0
  {
    patch := GenerateTree(from, to, mode);
    if from.Object? && to.Object? {
      ObjectMerges(target, from, to, mode, cs);
    } else {
      MergeTreeRefines(target, to, cs);
      if target.Some? && Meaning(target.value, cs) == Meaning(from, cs) && to.Object? {
        Rfc7396.OntoNothing(Some(Meaning(from, cs)), Meaning(to, cs));
      }
    }
  }

  lemma {:induction false} ObjectMerges(target: Option<Json>, from: Json, to: Json, mode: bool, cs: bool)
    requires DistinctSiblings(from, cs) && DistinctSiblings(to, cs) && (target.Some? ==> DistinctSiblings(target.value, cs))
    requires from.Object? && to.Object?
    ensures var patch := GenerateTree(from, to, mode);
      && (patch.Some? ==> patch.value.Object? && DistinctSiblings(MergeTree(target, patch.value, cs), cs))
      && (target.Some? && Meaning(target.value, cs) == Meaning(from, cs) ==>
            (Meaning(After(target.value, patch, cs), cs) == Meaning(to, cs) <==> Arrives(from, to, mode, cs)))
    decreases MembersSize(from.members), 3, 0, 0
  {
    var base, s, t := MembersOf(target), Sort(from.members, mode), Sort(to.members, mode);
    assert DistinctMembers(base, cs);
    SortedDistinct(from.members, mode, cs);
    SortedDistinct(to.members, mode, cs);
    SortedSize(from.members, mode);
    var r := WalkMerges(base, s, t, mode, cs);
    assert DistinctSiblings(Object(r), cs);
    if target.Some? && Meaning(target.value, cs) == Meaning(from, cs) {
      assert Fields(base, cs) == Fields(s, cs);
      AllReached(base, r, s, t, mode, cs);
    }
  }

  lemma SortedDistinct(members: seq<Member<Json>>, mode: bool, cs: bool)
    requires DistinctMembers(members, cs)
    ensures DistinctMembers(Sort(members, mode), cs) && Fields(Sort(members, mode), cs) == Fields(members, cs)
  {
    SortedSame(members, mode, cs);
  }

  /** Members that `t` does not have are gone. */
  lemma AllReached(base: seq<Member<Json>>, r: seq<Member<Json>>, s: seq<Member<Json>>, t: seq<Member<Json>>, mode: bool, cs: bool)
    requires DistinctUnder(base, cs) && DistinctUnder(s, cs) && Fields(base, cs) == Fields(s, cs)
    requires r == MergeMembers(base, GenerateMembers(s, t, mode), cs)
    ensures Fields(r, cs) == Fields(t, cs) <==> Reached(Fields(r, cs), Fields(t, cs))
  {
    forall k | k in Fields(r, cs) ensures k in Fields(t, cs) {
      if k !in Fields(t, cs) {
        var f := Untouched(base, s, t, mode, k, cs);
      }
    }
  }

  /**
   Generate a merge patch, then merge it into anything that means `from`: the result means `to` exactly when the patch
   arrives.
   */
  lemma GenerateThenMerge(from: Json, to: Json, doc: Json, cs: bool)
    requires DistinctSiblings(from, cs) && DistinctSiblings(to, cs) && DistinctSiblings(doc, cs)
    requires Meaning(doc, cs) == Meaning(from, cs)
    ensures var result := After(doc, GenerateTree(from, to, cs), cs);
      Meaning(result, cs) == Meaning(to, cs) <==> Arrives(from, to, cs, cs)
  {
    var patch := TreeMerges(Some(doc), from, to, cs, cs);
  }
}
