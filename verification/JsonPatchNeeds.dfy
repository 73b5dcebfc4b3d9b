/** The operations of a generated patch are needed: each of them stands where the two documents differ. */
module JsonPatchNeeds {
  import opened CStrings
  import opened JsonTrees
  import opened JsonPointerLaws
  import opened MergeSort
  import opened JsonCompare
  import opened JsonPatchGenerate
  import opened JsonPatchChanges

  predicate SameContainer(d: Doc, e: Doc) {
    (d.Arr? && e.Arr?) || (d.Obj? && e.Obj?)
  }

  /** A member that only one of two objects has; an element behind the end of the shorter one of two arrays. */
  predicate OneSided(d: Doc, e: Doc, c: Change, cs: bool)
    requires |c.path| == 1 && !c.Replaced?
  {
    var token := c.path[0];
    match (d, e, c)
    case (Obj(f), Obj(g), Removed(_)) => Norm(cs, token) in f && Norm(cs, token) !in g
    case (Obj(f), Obj(g), Added(_, value)) => Norm(cs, token) !in f && Norm(cs, token) in g && g[Norm(cs, token)] == Meaning(value, cs)
    case (Arr(x), Arr(y), Removed(_)) => |x| > |y| && token == Decimal(|y|)
    case (Arr(x), Arr(y), Added(_, value)) => |x| < |y| && token == "-" && Meaning(value, cs) in y[|x|..]
    case _ => false
  }

  /** What is replaced stands at the same place in both, is not the same, and is not two arrays or two objects: those are entered. */
  predicate Needed(d: Doc, e: Doc, c: Change, cs: bool)
    decreases |c.path|
  {
    if c.path == [] then c.Replaced? && !SameContainer(d, e) && d != e && Meaning(c.value, cs) == e
    else if |c.path| == 1 && !c.Replaced? then OneSided(d, e, c, cs)
    else
      && SameContainer(d, e) && DocChild(d, c.path[0], cs).Some? && DocChild(e, c.path[0], cs).Some?
      && Needed(DocChild(d, c.path[0], cs).value, DocChild(e, c.path[0], cs).value, c.(path := c.path[1..]), cs)
  }

  predicate AllNeeded(d: Doc, e: Doc, changes: seq<Change>, cs: bool) {
    forall i :: 0 <= i < |changes| ==> Needed(d, e, changes[i], cs)
  }

  lemma NeededJoin(d: Doc, e: Doc, a: seq<Change>, b: seq<Change>, cs: bool)
    requires AllNeeded(d, e, a, cs) && AllNeeded(d, e, b, cs)
    ensures AllNeeded(d, e, a + b, cs)
  {
  }

  lemma NeededBelow(d: Doc, e: Doc, token: string, changes: seq<Change>, cs: bool)
    requires SameContainer(d, e) && DocChild(d, token, cs).Some? && DocChild(e, token, cs).Some?
    requires AllNeeded(DocChild(d, token, cs).value, DocChild(e, token, cs).value, changes, cs)
    ensures AllNeeded(d, e, AllBelow(token, changes), cs)
  {
    var below := AllBelow(token, changes);
    forall i | 0 <= i < |below| ensures Needed(d, e, below[i], cs) {
      assert Needed(DocChild(d, token, cs).value, DocChild(e, token, cs).value, changes[i], cs);
      assert below[i].path[1..] == changes[i].path && below[i].(path := changes[i].path) == changes[i];
      assert changes[i].path == [] ==> changes[i].Replaced?;
    }
  }

  // ---------- arrays ----------

  lemma {:induction false} DroppedNeeded(x: seq<Doc>, y: seq<Doc>, count: int, cs: bool)
    requires count > 0 ==> |x| > |y|
    ensures AllNeeded(Arr(x), Arr(y), Dropped(|y|, count), cs)
    decreases count
  {
    if count > 0 {
      DroppedNeeded(x, y, count - 1, cs);
      assert Needed(Arr(x), Arr(y), Removed([Decimal(|y|)]), cs);
    }
  }

  lemma {:induction false} AppendedNeeded(x: seq<Doc>, y: seq<Json>, i: nat, cs: bool)
    requires |x| <= i
    ensures AllNeeded(Arr(x), Arr(Elements(y, cs)), Appended(y, i), cs)
    decreases |y| - i
  {
    if i < |y| {
      AppendedNeeded(x, y, i + 1, cs);
      assert Elements(y, cs)[|x|..][i - |x|] == Meaning(y[i], cs);
      assert Needed(Arr(x), Arr(Elements(y, cs)), Added(["-"], y[i]), cs);
    }
  }

  lemma {:induction false} ElementsNeeded(x: seq<Json>, y: seq<Json>, i: nat, cs: bool)
    requires AllReady(x, cs) && AllReady(y, cs) && i <= |x| && i <= |y|
    ensures AllNeeded(Arr(Elements(x, cs)), Arr(Elements(y, cs)), ElementChanges(x, y, i, cs), cs)
    decreases ItemsSize(x), 1, |x| - i, 0
  {
    var d, e := Arr(Elements(x, cs)), Arr(Elements(y, cs));
    if i < |x| && i < |y| {
      ItemSize(x, x[i]);
      ChangesNeeded(x[i], y[i], cs);
      IndexReads(i);
      NeededBelow(d, e, Decimal(i), Changes(x[i], y[i], cs), cs);
      ElementsNeeded(x, y, i + 1, cs);
      NeededJoin(d, e, AllBelow(Decimal(i), Changes(x[i], y[i], cs)), ElementChanges(x, y, i + 1, cs), cs);
    } else {
      if i < |x| {
        DroppedNeeded(Elements(x, cs), Elements(y, cs), |x| - i, cs);
      }
      if i < |y| {
        AppendedNeeded(Elements(x, cs), y, i, cs);
      }
      NeededJoin(d, e, Dropped(i, |x| - i), Appended(y, i), cs);
    }
  }

  // ---------- objects ----------

  /** What is left of the two walks is in the objects as it was, and on one side only if it is left on one side only. */
  predicate Left(s: map<string, Doc>, t: map<string, Doc>, f: map<string, Doc>, g: map<string, Doc>) {
    && (forall k :: k in s ==> k in f && f[k] == s[k] && (k in t || k !in g))
    && (forall k :: k in t ==> k in g && g[k] == t[k] && (k in s || k !in f))
  }

  lemma LeftRest(s: map<string, Doc>, t: map<string, Doc>, s': map<string, Doc>, t': map<string, Doc>, f: map<string, Doc>, g: map<string, Doc>, k: string)
    requires Left(s, t, f, g) && k !in s' && k !in t' && s' == s - {k} && t' == t - {k}
    ensures Left(s', t', f, g)
  {
  }

  lemma NeededFirst(d: Doc, e: Doc, c: Change, rest: seq<Change>, cs: bool)
    requires Needed(d, e, c, cs) && AllNeeded(d, e, rest, cs)
    ensures AllNeeded(d, e, [c] + rest, cs)
  {
  }

  lemma Rest(s: seq<Member<Json>>, cs: bool) returns (k: string)
    requires AllMembersReady(s, cs) && s != []
    ensures k == Norm(cs, s[0].key) && AllMembersReady(s[1..], cs) && Ready(s[0].value, cs)
    ensures Fields(s[1..], cs) == Fields(s, cs) - {k} && k in Fields(s, cs) && Fields(s, cs)[k] == Meaning(s[0].value, cs)
  {
    HeadReady(s, cs);
    k := Norm(cs, s[0].key);
  }

  lemma {:induction false} MembersNeeded(s: seq<Member<Json>>, t: seq<Member<Json>>, f: map<string, Doc>, g: map<string, Doc>, cs: bool)
    requires AllMembersReady(s, cs) && AllMembersReady(t, cs) && Left(Fields(s, cs), Fields(t, cs), f, g)
    ensures AllNeeded(Obj(f), Obj(g), MemberChanges(s, t, cs), cs)
    decreases MembersSize(s), 1, |s| + |t|, 1
  {
    if s == [] && t == [] {
    } else if s == [] || (t != [] && Before(t[0], s[0], cs)) {
      var k := Rest(t, cs);
      AbsentBelow(s, k, cs);
      LeftRest(Fields(s, cs), Fields(t, cs), Fields(s, cs), Fields(t[1..], cs), f, g, k);
      MembersNeeded(s, t[1..], f, g, cs);
      NeededFirst(Obj(f), Obj(g), Added([t[0].key], t[0].value), MemberChanges(s, t[1..], cs), cs);
    } else if t == [] || Before(s[0], t[0], cs) {
      var k := Rest(s, cs);
      AbsentBelow(t, k, cs);
      LeftRest(Fields(s, cs), Fields(t, cs), Fields(s[1..], cs), Fields(t, cs), f, g, k);
      MembersNeeded(s[1..], t, f, g, cs);
      NeededFirst(Obj(f), Obj(g), Removed([s[0].key]), MemberChanges(s[1..], t, cs), cs);
    } else {
      PairNeeded(s, t, f, g, cs);
    }
  }

  lemma {:induction false} PairNeeded(s: seq<Member<Json>>, t: seq<Member<Json>>, f: map<string, Doc>, g: map<string, Doc>, cs: bool)
    requires AllMembersReady(s, cs) && AllMembersReady(t, cs) && Left(Fields(s, cs), Fields(t, cs), f, g)
    requires s != [] && t != [] && !Before(s[0], t[0], cs) && !Before(t[0], s[0], cs)
    ensures AllNeeded(Obj(f), Obj(g), MemberChanges(s, t, cs), cs)
    decreases MembersSize(s), 1, |s| + |t|, 0
  {
    var k := Rest(s, cs);
    var l := Rest(t, cs);
    LessTotal(k, l);
    var below := Changes(s[0].value, t[0].value, cs);
    ChangesNeeded(s[0].value, t[0].value, cs);
    NeededBelow(Obj(f), Obj(g), s[0].key, below, cs);
    LeftRest(Fields(s, cs), Fields(t, cs), Fields(s[1..], cs), Fields(t[1..], cs), f, g, k);
    MembersNeeded(s[1..], t[1..], f, g, cs);
    NeededJoin(Obj(f), Obj(g), AllBelow(s[0].key, below), MemberChanges(s[1..], t[1..], cs), cs);
  }

  // ---------- the whole ----------

  /** Every generated operation is needed. */
  lemma {:induction false} ChangesNeeded(from: Json, to: Json, cs: bool)
    requires Ready(from, cs) && Ready(to, cs)
    ensures AllNeeded(Meaning(from, cs), Meaning(to, cs), Changes(from, to, cs), cs)
    decreases Size(from), 0, 0, 0
  {
    match (from, to)
    case (Array(x), Array(y)) =>
      ElementsNeeded(x, y, 0, cs);
    case (Object(x), Object(y)) =>
      SortedSize(x, cs);
      SortedReady(x, cs);
      SortedReady(y, cs);
      assert Left(Fields(x, cs), Fields(y, cs), Fields(x, cs), Fields(y, cs));
      MembersNeeded(Sort(x, cs), Sort(y, cs), Fields(x, cs), Fields(y, cs), cs);
    case (_, _) =>
  }

  lemma {:induction false} NotNeeded(d: Doc, c: Change, cs: bool)
    ensures !Needed(d, d, c, cs)
    decreases |c.path|
  {
    if c.path != [] && (|c.path| > 1 || c.Replaced?) && DocChild(d, c.path[0], cs).Some? {
      NotNeeded(DocChild(d, c.path[0], cs).value, c.(path := c.path[1..]), cs);
    }
  }

  /** Nothing is generated exactly when the two mean the same. */
  lemma NoChangesIff(from: Json, to: Json, cs: bool)
    requires Ready(from, cs) && Ready(to, cs)
    ensures Changes(from, to, cs) == [] <==> Meaning(from, cs) == Meaning(to, cs)
  {
    ChangesRun(from, to, cs);
    ChangesNeeded(from, to, cs);
    if Meaning(from, cs) == Meaning(to, cs) && Changes(from, to, cs) != [] {
      NotNeeded(Meaning(from, cs), Changes(from, to, cs)[0], cs);
      assert false;
    }
  }
}
