/** Names that strcmp orders as the sort does: with these a generated merge patch records the difference. */
module JsonMergeNames {
  import opened CStrings
  import opened JsonTrees
  import opened MergeSort
  import opened JsonCompare
  import opened JsonMergePatch
  import opened JsonMergeRoundTrip
  import Rfc7396

  // ---------- the condition ----------

  /** strcmp orders the names as the comparison that ignores case does; then no two of them are equal up to case. */
  predicate SortAlike(names: set<string>) {
    forall a, b :: a in names && b in names ==> (Less(a, b) <==> Less(Lower(a), Lower(b)))
  }

  /**
   Wherever two objects are compared without regard to case, their names sort alike. Objects are paired by name; below the
   first level they are compared without regard to case in either mode. Inside arrays this only matters when the patch is
   merged with regard to case.
   */
  predicate Ordered(d: Doc, e: Doc, mode: bool, cs: bool)
    decreases d
  {
    match (d, e)
    case (Obj(f), Obj(g)) =>
      && (mode || SortAlike(f.Keys + g.Keys))
      && forall k | k in f && k in g :: Ordered(f[k], g[k], false, cs)
    case (Arr(x), Arr(y)) => cs ==> forall i | 0 <= i < |x| && i < |y| :: Ordered(x[i], y[i], false, cs)
    case (_, _) => true
  }

  predicate OrderedTrees(from: Json, to: Json, mode: bool, cs: bool) {
    Ordered(Meaning(from, true), Meaning(to, true), mode, cs)
  }

  /** In mode `cs` the names are ordered as strcmp does. */
  predicate Agreeing(names: set<string>, cs: bool) {
    cs || SortAlike(names)
  }

  lemma AgreeingPair(names: set<string>, a: string, b: string, cs: bool)
    requires Agreeing(names, cs) && a in names && b in names
    ensures Less(a, b) <==> Less(Norm(cs, a), Norm(cs, b))
    ensures a == b <==> Norm(cs, a) == Norm(cs, b)
  {
    LessTotal(a, b);
    LessTotal(Norm(cs, a), Norm(cs, b));
  }

  // ---------- sorting in either mode ----------

  predicate NamesIn<T>(s: seq<Member<T>>, names: set<string>) {
    forall i :: 0 <= i < |s| ==> s[i].key in names
  }

  lemma {:induction false} MergeSame<T>(a: seq<Member<T>>, b: seq<Member<T>>, names: set<string>)
    requires NamesIn(a, names) && NamesIn(b, names) && SortAlike(names)
    ensures Merge(a, b, false) == Merge(a, b, true)
    decreases |a| + |b|
  {
    if a != [] && b != [] {
      AgreeingPair(names, a[0].key, b[0].key, false);
      MergeSame(a[1..], b, names);
      MergeSame(a, b[1..], names);
    }
  }

  lemma {:induction false} SortSame<T>(s: seq<Member<T>>, names: set<string>)
    requires NamesIn(s, names) && SortAlike(names)
    ensures Sort(s, false) == Sort(s, true) && NamesIn(Sort(s, true), names)
    decreases |s|
  {
    forall i | 0 <= i < |s| - 1 ensures Before(s[i], s[i + 1], false) <==> Before(s[i], s[i + 1], true) {
      AgreeingPair(names, s[i].key, s[i + 1].key, false);
    }
    assert Ascending(s, false) == Ascending(s, true);
    if |s| > 1 && !Ascending(s, true) {
      var middle := (|s| + 1) / 2;
      SortUnfold(s, true, middle);
      SortUnfold(s, false, middle);
      SortSame(s[..middle], names);
      SortSame(s[middle..], names);
      MergeSame(Sort(s[..middle], true), Sort(s[middle..], true), names);
    }
    SortedNamesIn(s, true, names);
  }

  lemma SortedNamesIn<T>(s: seq<Member<T>>, cs: bool, names: set<string>)
    requires NamesIn(s, names)
    ensures NamesIn(Sort(s, cs), names)
  {
    forall i | 0 <= i < |s| ensures Sort(s, cs)[i].key in names {
      WasIn(s, Sort(s, cs)[i], cs);
    }
  }

  lemma {:induction false} DistinctWithCase(j: Json, cs: bool)
    requires DistinctSiblings(j, cs)
    ensures DistinctSiblings(j, true)
    decreases j
  {
    match j
    case Array(items) =>
      forall x | x in items ensures DistinctSiblings(x, true) {
        DistinctWithCase(x, cs);
      }
    case Object(members) =>
      forall m | m in members ensures DistinctSiblings(m.value, true) {
        DistinctWithCase(m.value, cs);
      }
      assert DistinctMembers(members, true);
    case _ =>
  }

  /** What the walk in step needs of a list. */
  predicate Listed(s: seq<Member<Json>>, names: set<string>, cs: bool) {
    && NamesIn(s, names)
    && StrictlyIncreasing(s, true)
    && StrictlyIncreasing(s, cs)
    && forall m :: m in s ==> DistinctSiblings(m.value, cs)
  }

  lemma NamesOfFields(members: seq<Member<Json>>)
    requires DistinctUnder(members, true)
    ensures NamesIn(members, Fields(members, true).Keys)
  {
    forall i | 0 <= i < |members| ensures members[i].key in Fields(members, true) {
      FieldsAt(members, i, true);
    }
  }

  /** Sorting an object in the mode it is walked in. */
  lemma SortedListed(members: seq<Member<Json>>, names: set<string>, mode: bool, cs: bool) returns (s: seq<Member<Json>>)
    requires DistinctMembers(members, cs) && NamesIn(members, names) && (mode || SortAlike(names)) && (mode ==> cs)
    ensures s == Sort(members, mode) && s == Sort(members, true) && s == Sort(members, cs) && Listed(s, names, cs)
    ensures Fields(s, true) == Fields(members, true) && Fields(s, cs) == Fields(members, cs)
    ensures DistinctUnder(s, true)
  {
    s := Sort(members, true);
    if !mode {
      SortSame(members, names);
    }
    SortedNamesIn(members, true, names);
    assert DistinctUnder(members, true);
    DistinctSortsStrictly(members, true);
    DistinctSortsStrictly(members, cs);
    SortedSame(members, true, true);
    forall m | m in s ensures DistinctSiblings(m.value, cs) {
      assert m in members;
    }
  }

  // ---------- comparing in either mode ----------

  /** Two members of one name, in objects whose names are ordered, have ordered values. */
  lemma PairOrdered(s: seq<Member<Json>>, t: seq<Member<Json>>, i: nat, j: nat, cs: bool)
    requires DistinctUnder(s, true) && DistinctUnder(t, true) && i < |s| && j < |t| && s[i].key == t[j].key
    requires ValuesOrdered(Fields(s, true), Fields(t, true), cs)
    ensures OrderedTrees(s[i].value, t[j].value, false, cs)
  {
    FieldsAt(s, i, true);
    FieldsAt(t, j, true);
  }

  predicate ValuesOrdered(f: map<string, Doc>, g: map<string, Doc>, cs: bool) {
    forall k | k in f && k in g :: Ordered(f[k], g[k], false, cs)
  }

  /** compare_json gives the same answer in either mode. */
  lemma {:induction false} ModesAgree(v: Json, w: Json)
    requires DistinctSiblings(v, true) && DistinctSiblings(w, true) && OrderedTrees(v, w, false, true)
    ensures JsonEqual(v, w, false) <==> JsonEqual(v, w, true)
    decreases v
  {
    match (v, w)
    case (Array(x), Array(y)) =>
      if |x| == |y| {
        forall i | 0 <= i < |x| ensures JsonEqual(x[i], y[i], false) <==> JsonEqual(x[i], y[i], true) {
          assert Ordered(Elements(x, true)[i], Elements(y, true)[i], false, true);
          ModesAgree(x[i], y[i]);
        }
      }
    case (Object(x), Object(y)) =>
      ObjectModesAgree(x, y);
    case (_, _) =>
  }

  lemma {:induction false} ObjectModesAgree(x: seq<Member<Json>>, y: seq<Member<Json>>)
    requires DistinctMembers(x, true) && DistinctMembers(y, true) && OrderedTrees(Object(x), Object(y), false, true)
    ensures JsonEqual(Object(x), Object(y), false) <==> JsonEqual(Object(x), Object(y), true)
    decreases x
  {
    var names := Fields(x, true).Keys + Fields(y, true).Keys;
    NamesOfFields(x);
    NamesOfFields(y);
    var s := SortedListed(x, names, false, true);
    var t := SortedListed(y, names, false, true);
    JsonEqualObjects(x, y, false);
    JsonEqualObjects(x, y, true);
    if |s| == |t| {
      forall i | 0 <= i < |s| ensures EqualAt(s[i], t[i], false) <==> EqualAt(s[i], t[i], true) {
        AgreeingPair(names, s[i].key, t[i].key, false);
        SortedMember(x, true, i);
        if s[i].key == t[i].key {
          PairOrdered(s, t, i, i, true);
          ModesAgree(s[i].value, t[i].value);
        }
      }
    }
  }

  /** compare_json decides the meaning, in any mode it is called in. */
  lemma EqualMeansSame(v: Json, w: Json, mode: bool, cs: bool)
    requires DistinctSiblings(v, cs) && DistinctSiblings(w, cs) && (mode ==> cs) && OrderedTrees(v, w, false, cs)
    ensures JsonEqual(v, w, mode) <==> Meaning(v, cs) == Meaning(w, cs)
  {
    if mode != cs {
      ModesAgree(v, w);
    }
    JsonEqualIffSameMeaning(v, w, cs);
  }

  // ---------- the walk ----------

  predicate Expressed(f: map<string, Doc>, g: map<string, Doc>) {
    Rfc7396.Expressible(Obj(f), Obj(g))
  }

  lemma ExpressedAll(f: map<string, Doc>, g: map<string, Doc>)
    ensures Expressed(f, g) <==> forall k :: k in g ==> Rfc7396.Fine(f, g, k)
  {
  }

  lemma ExpressedGone(f: map<string, Doc>, g: map<string, Doc>, k: string, v: Doc)
    requires k !in f && k !in g
    ensures Expressed(f[k := v], g) <==> Expressed(f, g)
    ensures f[k := v] != g
  {
    ExpressedAll(f[k := v], g);
    ExpressedAll(f, g);
    assert forall x :: x in g ==> (Rfc7396.Fine(f[k := v], g, x) <==> Rfc7396.Fine(f, g, x));
    assert k in f[k := v];
  }

  lemma ExpressedNew(f: map<string, Doc>, g: map<string, Doc>, k: string, w: Doc)
    requires k !in f && k !in g
    ensures Expressed(f, g[k := w]) <==> w != Rfc7396.Nothing && Rfc7396.NullFree(w) && Expressed(f, g)
    ensures f != g[k := w]
  {
    var g' := g[k := w];
    ExpressedAll(f, g');
    ExpressedAll(f, g);
    assert forall x :: x in g ==> (Rfc7396.Fine(f, g', x) <==> Rfc7396.Fine(f, g, x));
    assert forall x :: x in g' <==> x == k || x in g;
    assert Rfc7396.Fine(f, g', k) <==> w != Rfc7396.Nothing && Rfc7396.NullFree(w);
  }

  lemma ExpressedPair(f: map<string, Doc>, g: map<string, Doc>, k: string, v: Doc, w: Doc)
    requires k !in f && k !in g
    ensures Expressed(f[k := v], g[k := w]) <==>
            (v == w || (w != Rfc7396.Nothing && Rfc7396.Expressible(v, w))) && Expressed(f, g)
    ensures f[k := v] == g[k := w] <==> v == w && f == g
  {
    var f', g' := f[k := v], g[k := w];
    ExpressedAll(f', g');
    ExpressedAll(f, g);
    assert forall x :: x in g ==> (Rfc7396.Fine(f', g', x) <==> Rfc7396.Fine(f, g, x));
    assert forall x :: x in g' <==> x == k || x in g;
    assert Rfc7396.Fine(f', g', k) <==> v == w || (w != Rfc7396.Nothing && Rfc7396.Expressible(v, w));
    MapHeads(f, g, k, v, w);
  }

  // ---------- the patch is the difference ----------

  /** The members of the patch mean the difference of RFC 7396, and each name is there once. */
  predicate Records(patch: seq<Member<Json>>, f: map<string, Doc>, g: map<string, Doc>, cs: bool) {
    DistinctUnder(patch, cs) && Obj(Fields(patch, cs)) == Rfc7396.Difference(Obj(f), Obj(g))
  }

  lemma DistinctInFront(m: Member<Json>, patch: seq<Member<Json>>, cs: bool)
    requires DistinctUnder(patch, cs) && Norm(cs, m.key) !in Fields(patch, cs)
    ensures DistinctUnder([m] + patch, cs)
    ensures Fields([m] + patch, cs) == Fields(patch, cs)[Norm(cs, m.key) := Meaning(m.value, cs)]
  {
    FieldsLookup(patch, m.key, cs);
    assert ([m] + patch)[1..] == patch;
  }

  lemma RecordsGone(patch: seq<Member<Json>>, f: map<string, Doc>, g: map<string, Doc>, name: string, v: Doc, cs: bool)
    requires Records(patch, f, g, cs) && Norm(cs, name) !in f && Norm(cs, name) !in g
    ensures Records([Member(name, Null)] + patch, f[Norm(cs, name) := v], g, cs)
  {
    var k := Norm(cs, name);
    DistinctInFront(Member(name, Null), patch, cs);
    assert Rfc7396.Difference(Obj(f[k := v]), Obj(g)).fields == Rfc7396.Difference(Obj(f), Obj(g)).fields[k := Rfc7396.Nothing];
  }

  lemma RecordsNew(patch: seq<Member<Json>>, f: map<string, Doc>, g: map<string, Doc>, m: Member<Json>, cs: bool)
    requires Records(patch, f, g, cs) && Norm(cs, m.key) !in f && Norm(cs, m.key) !in g
    ensures Records([m] + patch, f, g[Norm(cs, m.key) := Meaning(m.value, cs)], cs)
  {
    var k, w := Norm(cs, m.key), Meaning(m.value, cs);
    DistinctInFront(m, patch, cs);
    assert Rfc7396.Difference(Obj(f), Obj(g[k := w])).fields == Rfc7396.Difference(Obj(f), Obj(g)).fields[k := w];
  }

  lemma RecordsSame(patch: seq<Member<Json>>, f: map<string, Doc>, g: map<string, Doc>, k: string, v: Doc, cs: bool)
    requires Records(patch, f, g, cs) && k !in f && k !in g
    ensures Records(patch, f[k := v], g[k := v], cs)
  {
    assert Rfc7396.Difference(Obj(f[k := v]), Obj(g[k := v])).fields == Rfc7396.Difference(Obj(f), Obj(g)).fields;
  }

  lemma RecordsOther(patch: seq<Member<Json>>, f: map<string, Doc>, g: map<string, Doc>, m: Member<Json>, v: Doc, w: Doc, cs: bool)
    requires Records(patch, f, g, cs) && Norm(cs, m.key) !in f && Norm(cs, m.key) !in g
    requires v != w && Meaning(m.value, cs) == Rfc7396.Difference(v, w)
    ensures Records([m] + patch, f[Norm(cs, m.key) := v], g[Norm(cs, m.key) := w], cs)
  {
    var k := Norm(cs, m.key);
    DistinctInFront(m, patch, cs);
    assert Rfc7396.Difference(Obj(f[k := v]), Obj(g[k := w])).fields
        == Rfc7396.Difference(Obj(f), Obj(g)).fields[k := Rfc7396.Difference(v, w)];
  }

  /** One pair of values of a name, in front of what is recorded. */
  lemma RecordsPair(pair: seq<Member<Json>>, patch: seq<Member<Json>>, f: map<string, Doc>, g: map<string, Doc>, name: string, v: Doc, w: Doc, cs: bool)
    requires Records(patch, f, g, cs) && Norm(cs, name) !in f && Norm(cs, name) !in g && PairRecords(pair, name, v, w, cs)
    ensures Records(pair + patch, f[Norm(cs, name) := v], g[Norm(cs, name) := w], cs)
  {
    if pair == [] {
      assert pair + patch == patch;
      RecordsSame(patch, f, g, Norm(cs, name), v, cs);
    } else {
      assert pair == [pair[0]];
      RecordsOther(patch, f, g, pair[0], v, w, cs);
    }
  }

  /** Nothing for the same value, and else the difference under the name. */
  predicate PairRecords(pair: seq<Member<Json>>, name: string, v: Doc, w: Doc, cs: bool) {
    if v == w then pair == []
    else |pair| == 1 && pair[0].key == name && Meaning(pair[0].value, cs) == Rfc7396.Difference(v, w)
  }

  // ---------- the walk expresses the difference ----------

  lemma ListedTail(s: seq<Member<Json>>, names: set<string>, cs: bool) returns (k: string, v: Doc)
    requires Listed(s, names, cs) && s != []
    ensures k == Norm(cs, s[0].key) && v == Meaning(s[0].value, cs)
    ensures Listed(s[1..], names, cs) && s[0].key in names && DistinctSiblings(s[0].value, cs)
    ensures k !in Fields(s[1..], cs) && Fields(s, cs) == Fields(s[1..], cs)[k := v]
    ensures s[0].key !in Fields(s[1..], true)
    ensures Fields(s, true) == Fields(s[1..], true)[s[0].key := Meaning(s[0].value, true)]
  {
    TailIncreasing(s, cs);
    TailIncreasing(s, true);
    assert s[0] in s;
    k, v := Norm(cs, s[0].key), Meaning(s[0].value, cs);
  }

  /** The walk arrives exactly when the difference can be expressed; what it generates is the difference, and nothing exactly when
      there is none. */
  predicate Expresses(s: seq<Member<Json>>, t: seq<Member<Json>>, mode: bool, cs: bool) {
    && (WalkArrives(s, t, mode, cs) <==> Expressed(Fields(s, cs), Fields(t, cs)))
    && (GenerateMembers(s, t, mode) == [] <==> Fields(s, cs) == Fields(t, cs))
    && Records(GenerateMembers(s, t, mode), Fields(s, cs), Fields(t, cs), cs)
  }

  predicate Walkable(s: seq<Member<Json>>, t: seq<Member<Json>>, names: set<string>, mode: bool, cs: bool) {
    && Listed(s, names, cs) && Listed(t, names, cs) && Agreeing(names, cs) && (mode ==> cs)
    && ValuesOrdered(Fields(s, true), Fields(t, true), cs)
  }

  lemma {:induction false} WalkExpresses(s: seq<Member<Json>>, t: seq<Member<Json>>, names: set<string>, mode: bool, cs: bool)
    requires Walkable(s, t, names, mode, cs)
    ensures Expresses(s, t, mode, cs)
    decreases MembersSize(s), 2, |s| + |t|, 1
  {
    if s == [] && t == [] {
      ExpressedAll(map[], map[]);
    } else if s != [] && (t == [] || Less(s[0].key, t[0].key)) {
      RemovalExpresses(s, t, names, mode, cs);
    } else if s == [] || s[0].key != t[0].key {
      AdditionExpresses(s, t, names, mode, cs);
    } else {
      PairExpresses(s, t, names, mode, cs);
    }
  }

  lemma {:induction false} RemovalExpresses(s: seq<Member<Json>>, t: seq<Member<Json>>, names: set<string>, mode: bool, cs: bool)
    requires Walkable(s, t, names, mode, cs) && s != [] && (t == [] || Less(s[0].key, t[0].key))
    ensures Expresses(s, t, mode, cs)
    decreases MembersSize(s), 2, |s| + |t|, 0
  {
    var k, v := ListedTail(s, names, cs);
    if t != [] {
      AgreeingPair(names, s[0].key, t[0].key, cs);
    }
    AbsentBelow(t, k, cs);
    WalkExpresses(s[1..], t, names, mode, cs);
    ExpressedGone(Fields(s[1..], cs), Fields(t, cs), k, v);
    RecordsGone(GenerateMembers(s[1..], t, mode), Fields(s[1..], cs), Fields(t, cs), s[0].key, v, cs);
  }

  lemma {:induction false} AdditionExpresses(s: seq<Member<Json>>, t: seq<Member<Json>>, names: set<string>, mode: bool, cs: bool)
    requires Walkable(s, t, names, mode, cs)
    requires t != [] && (s == [] || (!Less(s[0].key, t[0].key) && s[0].key != t[0].key))
    ensures Expresses(s, t, mode, cs)
    decreases MembersSize(s), 2, |s| + |t|, 0
  {
    var k, w := ListedTail(t, names, cs);
    if s != [] {
      LessTotal(s[0].key, t[0].key);
      AgreeingPair(names, t[0].key, s[0].key, cs);
    }
    AbsentBelow(s, k, cs);
    FieldsLookup(s, t[0].key, cs);
    WalkExpresses(s, t[1..], names, mode, cs);
    ExpressedNew(Fields(s, cs), Fields(t[1..], cs), k, w);
    RecordsNew(GenerateMembers(s, t[1..], mode), Fields(s, cs), Fields(t[1..], cs), t[0], cs);
    assert [Member(t[0].key, t[0].value)] == [t[0]];
  }

  lemma ValuesOrderedHead(f: map<string, Doc>, g: map<string, Doc>, k: string, v: Doc, w: Doc, cs: bool)
    requires k !in f && k !in g && ValuesOrdered(f[k := v], g[k := w], cs)
    ensures Ordered(v, w, false, cs) && ValuesOrdered(f, g, cs)
  {
    var f', g' := f[k := v], g[k := w];
    assert k in f' && k in g' && f'[k] == v && g'[k] == w;
    forall x | x in f && x in g ensures Ordered(f[x], g[x], false, cs) {
      assert x in f' && x in g' && f'[x] == f[x] && g'[x] == g[x];
    }
  }

  lemma {:induction false} PairExpresses(s: seq<Member<Json>>, t: seq<Member<Json>>, names: set<string>, mode: bool, cs: bool)
    requires Walkable(s, t, names, mode, cs) && s != [] && t != [] && s[0].key == t[0].key
    ensures Expresses(s, t, mode, cs)
    decreases MembersSize(s), 2, |s| + |t|, 0
  {
    LessTotal(s[0].key, t[0].key);
    var k, v := ListedTail(s, names, cs);
    var _, w := ListedTail(t, names, cs);
    ValuesOrderedHead(Fields(s[1..], true), Fields(t[1..], true), t[0].key, Meaning(s[0].value, true), Meaning(t[0].value, true), cs);
    ValuesExpress(t[0].key, s[0].value, t[0].value, mode, cs);
    WalkExpresses(s[1..], t[1..], names, mode, cs);
    ExpressedPair(Fields(s[1..], cs), Fields(t[1..], cs), k, v, w);
    var pair := PairPatch(t[0].key, s[0].value, t[0].value, mode);
    RecordsPair(pair, GenerateMembers(s[1..], t[1..], mode), Fields(s[1..], cs), Fields(t[1..], cs), t[0].key, v, w, cs);
  }

  /** Two values of one name. */
  lemma {:induction false} ValuesExpress(name: string, v: Json, w: Json, mode: bool, cs: bool)
    requires DistinctSiblings(v, cs) && DistinctSiblings(w, cs) && (mode ==> cs) && OrderedTrees(v, w, false, cs)
    ensures PairArrives(v, w, mode, cs) <==>
            Meaning(v, cs) == Meaning(w, cs) || (w != Null && Rfc7396.Expressible(Meaning(v, cs), Meaning(w, cs)))
    ensures PairRecords(PairPatch(name, v, w, mode), name, Meaning(v, cs), Meaning(w, cs), cs)
    decreases Size(v), 1, 0, 0
  {
    EqualMeansSame(v, w, mode, cs);
    LeftSize(v, w, mode);
    DistinctWithCase(v, cs);
    DistinctWithCase(w, cs);
    LeftMeans(v, w, mode, cs);
    LeftMeans(w, v, mode, cs);
    LeftMeans(v, w, mode, true);
    LeftMeans(w, v, mode, true);
    OrderedExpresses(Left(v, w, mode), Left(w, v, mode), false, cs);
  }

  /**
   When strcmp orders the names as the sort does, the patch arrives exactly when the difference needs no null to say that a
   member is null; the patch is the difference of RFC 7396, and none is generated exactly for two objects that mean the same.
   */
  lemma {:induction false} OrderedExpresses(from: Json, to: Json, mode: bool, cs: bool)
    requires DistinctSiblings(from, cs) && DistinctSiblings(to, cs) && (mode ==> cs) && OrderedTrees(from, to, mode, cs)
    ensures Arrives(from, to, mode, cs) <==> Rfc7396.Expressible(Meaning(from, cs), Meaning(to, cs))
    ensures GenerateTree(from, to, mode) == None <==> from.Object? && to.Object? && Meaning(from, cs) == Meaning(to, cs)
    ensures GenerateTree(from, to, mode).Some? ==>
              Meaning(GenerateTree(from, to, mode).value, cs) == Rfc7396.Difference(Meaning(from, cs), Meaning(to, cs))
    decreases Size(from), 0, 0, 0
  {
    if from.Object? && to.Object? {
      ObjectsExpress(from.members, to.members, mode, cs);
    }
  }

  lemma {:induction false} ObjectsExpress(x: seq<Member<Json>>, y: seq<Member<Json>>, mode: bool, cs: bool)
    requires DistinctMembers(x, cs) && DistinctMembers(y, cs) && (mode ==> cs) && OrderedTrees(Object(x), Object(y), mode, cs)
    ensures Expresses(Sort(x, mode), Sort(y, mode), mode, cs)
    ensures Fields(Sort(x, mode), cs) == Fields(x, cs) && Fields(Sort(y, mode), cs) == Fields(y, cs)
    decreases MembersSize(x), 3, 0, 0
  {
    var names := Fields(x, true).Keys + Fields(y, true).Keys;
    DistinctWithCase(Object(x), cs);
    DistinctWithCase(Object(y), cs);
    NamesOfFields(x);
    NamesOfFields(y);
    var s := SortedListed(x, names, mode, cs);
    var t := SortedListed(y, names, mode, cs);
    SortedSize(x, mode);
    WalkExpresses(s, t, names, mode, cs);
  }

  // ---------- generate, then merge ----------

  /** No null member in any object that is not inside an array. */
  predicate NoNullMembers(j: Json)
    decreases j
  {
    match j
    case Object(members) => forall m | m in members :: m.value != Null && NoNullMembers(m.value)
    case _ => true
  }

  lemma {:induction false} NoNullsFree(j: Json, cs: bool)
    requires NoNullMembers(j)
    ensures Rfc7396.NullFree(Meaning(j, cs))
    decreases j
  {
    if j.Object? {
      forall k | k in Fields(j.members, cs)
        ensures Fields(j.members, cs)[k] != Rfc7396.Nothing && Rfc7396.NullFree(Fields(j.members, cs)[k])
      {
        var i := FieldsOnly(j.members, k, cs);
        var m := j.members[i];
        assert m in j.members;
        NoNullsFree(m.value, cs);
      }
    }
  }

  /** Generate a merge patch, then merge it, where the names are ordered. */
  lemma GenerateThenMergeOrdered(from: Json, to: Json, doc: Json, cs: bool)
    requires DistinctSiblings(from, cs) && DistinctSiblings(to, cs) && DistinctSiblings(doc, cs)
    requires Meaning(doc, cs) == Meaning(from, cs) && OrderedTrees(from, to, cs, cs)
    ensures Meaning(After(doc, GenerateTree(from, to, cs), cs), cs) == Meaning(to, cs) <==>
            Rfc7396.Expressible(Meaning(from, cs), Meaning(to, cs))
    ensures NoNullMembers(to) ==> Rfc7396.Expressible(Meaning(from, cs), Meaning(to, cs))
  {
    GenerateThenMerge(from, to, doc, cs);
    OrderedExpresses(from, to, cs, cs);
    if NoNullMembers(to) {
      NoNullsFree(to, cs);
      Rfc7396.NullFreeExpressible(Meaning(from, cs), Meaning(to, cs));
    }
  }

  // ---------- where it goes wrong ----------

  /** With capital letters the walk by strcmp can miss that two names are the same up to case: from {"a":1} to {"A":1},
      equal without regard to case, it generates {"A":1,"a":null}, and merging that leaves {}. */
  lemma MixedCaseGoesWrong()
    ensures var from, to := Object([Member("a", Number(1))]), Object([Member("A", Number(1))]);
      var patch := Object([Member("A", Number(1)), Member("a", Null)]);
      && JsonEqual(from, to, false)
      && GenerateTree(from, to, false) == Some(patch)
      && MergeTree(Some(from), patch, false) == Object([])
      && !Arrives(from, to, false, false)
  {
    var a, A, gone := Member("a", Number(1)), Member("A", Number(1)), Member("a", Null);
    CapitalA();
    assert Sort([a], false) == [a] && Sort([A], false) == [A];
    assert JsonEqual(Object([a]), Object([A]), false) by {
      JsonEqualObjects([a], [A], false);
      assert EqualAt(a, A, false);
    }
    MixedCaseWalk(a, A, gone);
    MergesAway();
  }

  lemma MixedCaseWalk(a: Member<Json>, A: Member<Json>, gone: Member<Json>)
    requires a == Member("a", Number(1)) && A == Member("A", Number(1)) && gone == Member("a", Null)
    ensures GenerateMembers([a], [A], false) == [A, gone] && !WalkArrives([a], [A], false, false)
  {
    CapitalA();
    assert Less("A", "a") && !Less("a", "A");
    assert [a][1..] == [] && [A][1..] == [];
    assert GenerateMembers([], [], false) == [];
    assert GenerateMembers([a], [], false) == [gone] + [];
    assert GenerateMembers([a], [A], false) == [A] + GenerateMembers([a], [], false) == [A, gone];
    assert KeyIndex([a], "A", false) == 0 && !AddArrives([a], A, false);
  }

  lemma CapitalA()
    ensures Norm(false, "a") == Norm(false, "A")
  {
    assert LowerChar('A') == 'a' && LowerChar('a') == 'a';
  }

  lemma MergesAway()
    ensures MergeMembers([Member("a", Number(1))], [Member("A", Number(1)), Member("a", Null)], false) == []
  {
    var a, A, gone := Member("a", Number(1)), Member("A", Number(1)), Member("a", Null);
    CapitalA();
    assert KeyIndex([a], "A", false) == 0 && RemoveAt([a], 0) == [];
    assert MergeMember([a], "A", Number(1), false) == [] + [A] == [A];
    assert KeyIndex([A], "a", false) == 0 && RemoveAt([A], 0) == [];
    assert MergeMember([A], "a", Null, false) == [];
    assert [A, gone][1..] == [gone] && [gone][1..] == [];
    assert MergeMembers([A], [gone], false) == MergeMembers([], [], false);
  }

  /** Such names can also do no harm: from {"A":1} to {"a":1} the member is removed first, then added. */
  lemma MixedCaseMayArrive()
    ensures Arrives(Object([Member("A", Number(1))]), Object([Member("a", Number(1))]), false, false)
  {
    var A, a := Member("A", Number(1)), Member("a", Number(1));
    assert Sort([a], false) == [a] && Sort([A], false) == [A];
    assert Less("A", "a");
    assert [a][1..] == [] && [A][1..] == [];
    assert WalkArrives([], [], false, false);
    assert WalkArrives([], [a], false, false);
    assert WalkArrives([A], [a], false, false);
  }

  lemma OnePair(name: string, v: Json, w: Json, mode: bool) returns (patch: seq<Member<Json>>)
    ensures patch == PairPatch(name, v, w, mode)
    ensures GenerateTree(Object([Member(name, v)]), Object([Member(name, w)]), mode) ==
            if patch == [] then None else Some(Object(patch))
    ensures JsonEqual(Object([Member(name, v)]), Object([Member(name, w)]), mode) <==> JsonEqual(v, w, mode)
  {
    var s, t := [Member(name, v)], [Member(name, w)];
    LessTotal(name, name);
    patch := PairPatch(name, v, w, mode);
    assert Sort(s, mode) == s && Sort(t, mode) == t;
    assert s[1..] == [] && t[1..] == [];
    assert GenerateMembers([], [], mode) == [];
    assert GenerateMembers(s, t, mode) == patch + [] == patch;
    JsonEqualObjects(s, t, mode);
    assert JsonEqual(v, w, mode) ==> EqualAt(s[0], t[0], mode);
  }

  /** With regard to case too, as nested patches are generated without it: from {"x":{"y":{"a":1}}} to
      {"x":{"y":{"A":1}}} nothing is generated. */
  lemma NestedCaseGoesWrong()
    ensures var inner, other := Object([Member("a", Number(1))]), Object([Member("A", Number(1))]);
      var from := Object([Member("x", Object([Member("y", inner)]))]);
      var to := Object([Member("x", Object([Member("y", other)]))]);
      !JsonEqual(from, to, true) && GenerateTree(from, to, true) == None
  {
    var a, A := Member("a", Number(1)), Member("A", Number(1));
    var inner, other := Object([a]), Object([A]);
    var v, w := Object([Member("y", inner)]), Object([Member("y", other)]);
    CapitalA();
    assert Sort([a], false) == [a] && Sort([A], false) == [A] && Sort([a], true) == [a] && Sort([A], true) == [A];
    assert !JsonEqual(inner, other, true) by {
      JsonEqualObjects([a], [A], true);
      assert !EqualAt([a][0], [A][0], true);
    }
    assert JsonEqual(inner, other, false) by {
      JsonEqualObjects([a], [A], false);
      assert EqualAt(a, A, false);
    }
    var nothing := OnePair("y", inner, other, false);
    var both := OnePair("y", inner, other, true);
    NothingToSort(inner, other, true);
    NothingToSort(other, inner, true);
    var patch := OnePair("x", v, w, true);
  }

  lemma NothingToSort(v: Json, w: Json, mode: bool)
    requires Left(v, w, mode) == v && !JsonEqual(v, w, mode)
    ensures Left(Object([Member("y", v)]), Object([Member("y", w)]), mode) == Object([Member("y", v)])
  {
    var s, t := [Member("y", v)], [Member("y", w)];
    assert Sort(s, mode) == s && Sort(t, mode) == t && s[1..] == [];
    assert LeftMembers(s, t, mode) == s;
  }
}
