/** What create_patches writes down: operations that lead from the meaning of one document to that of the other, as RFC 6902
    reads them. */
module JsonPatchChanges {
  import opened CStrings
  import opened JsonTrees
  import opened JsonPointer
  import opened JsonPointerLaws
  import opened PointerDecode
  import opened MergeSort
  import opened JsonCompare
  import opened Rfc6902
  import opened JsonPatchApply
  import opened JsonPatchRefines
  import opened JsonPatchGenerate

  // ---------- changes as operations of the RFC ----------

  function ToOperation(c: Change, cs: bool): Operation {
    match c
    case Added(path, value) => Add(path, Meaning(value, cs))
    case Removed(path) => Remove(path)
    case Replaced(path, value) => Replace(path, Meaning(value, cs))
  }

  /** As RFC 6902 has it, the change leads from `d` to `after`. */
  predicate Turns(d: Doc, c: Change, after: Doc, cs: bool) {
    && Perform(d, ToOperation(c, cs), cs) == Some(after)
    && (!c.Removed? ==> DistinctSiblings(c.value, cs))
    && (!c.Replaced? ==> c.path != [])
  }

  ghost predicate Runs(d: Doc, changes: seq<Change>, goal: Doc, cs: bool)
    decreases |changes|
  {
    if changes == [] then d == goal
    else exists after :: Turns(d, changes[0], after, cs) && Runs(after, changes[1..], goal, cs)
  }

  lemma RunsTurn(d: Doc, changes: seq<Change>, goal: Doc, cs: bool) returns (after: Doc)
    requires Runs(d, changes, goal, cs) && changes != []
    ensures Turns(d, changes[0], after, cs) && Runs(after, changes[1..], goal, cs)
  {
    after :| Turns(d, changes[0], after, cs) && Runs(after, changes[1..], goal, cs);
  }

  lemma {:induction false} RunsJoin(d: Doc, a: seq<Change>, mid: Doc, b: seq<Change>, goal: Doc, cs: bool)
    requires Runs(d, a, mid, cs) && Runs(mid, b, goal, cs)
    ensures Runs(d, a + b, goal, cs)
    decreases |a|
  {
    if a == [] {
      assert a + b == b;
    } else {
      var after := RunsTurn(d, a, mid, cs);
      var rest := a[1..] + b;
      RunsJoin(after, a[1..], mid, b, goal, cs);
      RunsFirst(d, a[0], after, rest, goal, cs);
      assert a + b == [a[0]] + rest;
    }
  }

  lemma RunsFirst(d: Doc, c: Change, after: Doc, rest: seq<Change>, goal: Doc, cs: bool)
    requires Turns(d, c, after, cs) && Runs(after, rest, goal, cs)
    ensures Runs(d, [c] + rest, goal, cs)
  {
    assert ([c] + rest)[1..] == rest;
  }

  // ---------- a change at a child is a change at the parent ----------

  lemma PutBelow(d: Doc, token: string, path: seq<string>, v: Doc, cs: bool)
    requires DocChild(d, token, cs).Some? && DocGet(DocChild(d, token, cs).value, path, cs).Some?
    ensures ([token] + path)[1..] == path && DocGet(d, [token] + path, cs).Some?
    ensures DocPut(d, [token] + path, v, cs) ==
            PutChild(d, token, DocPut(DocChild(d, token, cs).value, path, v, cs), cs)
  {
    assert ([token] + path)[1..] == path;
  }

  lemma AddBelow(d: Doc, token: string, path: seq<string>, v: Doc, cs: bool)
    requires DocChild(d, token, cs).Some? && path != []
    ensures var r := DocAdd(DocChild(d, token, cs).value, path, v, cs);
      DocAdd(d, [token] + path, v, cs) == if r == None then None else Some(PutChild(d, token, r.value, cs))
  {
    var child, p := DocChild(d, token, cs).value, [token] + path;
    assert Parent(p) == [token] + Parent(path) && Parent(p)[1..] == Parent(path) && Last(p) == Last(path);
    var container := DocGet(child, Parent(path), cs);
    if container.Some? {
      var changed := AddTo(container.value, Last(path), v, cs);
      if changed.Some? {
        PutBelow(d, token, Parent(path), changed.value, cs);
      }
    }
  }

  lemma RemoveBelow(d: Doc, token: string, path: seq<string>, cs: bool)
    requires DocChild(d, token, cs).Some? && path != []
    ensures var r := DocRemove(DocChild(d, token, cs).value, path, cs);
      DocRemove(d, [token] + path, cs) == if r == None then None else Some(PutChild(d, token, r.value, cs))
  {
    var child, p := DocChild(d, token, cs).value, [token] + path;
    assert Parent(p) == [token] + Parent(path) && Parent(p)[1..] == Parent(path) && Last(p) == Last(path);
    var container := DocGet(child, Parent(path), cs);
    if container.Some? {
      var changed := RemoveFrom(container.value, Last(path), cs);
      if changed.Some? {
        PutBelow(d, token, Parent(path), changed.value, cs);
      }
    }
  }

  lemma TurnsBelow(d: Doc, token: string, c: Change, after: Doc, cs: bool)
    requires DocChild(d, token, cs).Some? && Turns(DocChild(d, token, cs).value, c, after, cs)
    ensures Turns(d, Below(token, c), PutChild(d, token, after, cs), cs)
  {
    match c
    case Added(path, value) => AddBelow(d, token, path, Meaning(value, cs), cs);
    case Removed(path) => RemoveBelow(d, token, path, cs);
    case Replaced(path, value) => PutBelow(d, token, path, Meaning(value, cs), cs);
  }

  /** Changing the child is changing the parent, token by token in front. */
  lemma {:induction false} RunsBelow(d: Doc, token: string, changes: seq<Change>, goal: Doc, cs: bool)
    requires DocChild(d, token, cs).Some? && Runs(DocChild(d, token, cs).value, changes, goal, cs)
    ensures Runs(d, AllBelow(token, changes), PutChild(d, token, goal, cs), cs)
    decreases |changes|
  {
    var child, below := DocChild(d, token, cs).value, AllBelow(token, changes);
    if changes == [] {
      PutSame(d, token, cs);
    } else {
      var after := RunsTurn(child, changes, goal, cs);
      TurnsBelow(d, token, changes[0], after, cs);
      PutChildTwice(d, token, after, goal, cs);
      var next := PutChild(d, token, after, cs);
      RunsBelow(next, token, changes[1..], goal, cs);
      assert below[1..] == AllBelow(token, changes[1..]);
    }
  }

  lemma PutSame(d: Doc, token: string, cs: bool)
    requires DocChild(d, token, cs).Some?
    ensures PutChild(d, token, DocChild(d, token, cs).value, cs) == d
  {
  }

  // ---------- arrays ----------

  predicate Ready(j: Json, cs: bool) {
    DistinctSiblings(j, cs) && Fits(j)
  }

  lemma IndexReads(n: nat)
    requires n < SIZE_LIMIT
    ensures Rfc6901Index(Decimal(n)) == Some(n) && IndexSane(Decimal(n)) && Encode(Decimal(n)) == Decimal(n)
    ensures Restorable(Decimal(n)) && Decimal(n) != "-"
  {
    DecimalSane(n);
    DecimalValue(n);
    PlainDecimal(n);
    assert !IsDigit('~') && !IsDigit('/') && !IsDigit('-');
    assert "-"[0] == '-';
  }

  lemma DashReads()
    ensures Restorable("-") && IndexSane("-")
  {
    assert Encode("-") == "-" by {
      assert "-"[1..] == "";
      EncodePlain("-");
    }
  }

  lemma {:induction false} DroppedRun(kept: seq<Doc>, gone: seq<Doc>, cs: bool)
    requires |kept| < SIZE_LIMIT
    ensures Runs(Arr(kept + gone), Dropped(|kept|, |gone|), Arr(kept), cs)
    decreases |gone|
  {
    if gone == [] {
      assert kept + gone == kept;
    } else {
      var index := Decimal(|kept|);
      var d, next := Arr(kept + gone), Arr(kept + gone[1..]);
      IndexReads(|kept|);
      assert (kept + gone)[..|kept|] + (kept + gone)[|kept| + 1..] == kept + gone[1..];
      assert Parent([index]) == [] && Last([index]) == index;
      assert Turns(d, Removed([index]), next, cs);
      DroppedRun(kept, gone[1..], cs);
      RunsFirst(d, Removed([index]), next, Dropped(|kept|, |gone| - 1), Arr(kept), cs);
    }
  }

  lemma {:induction false} AppendedRun(y: seq<Json>, i: nat, cs: bool)
    requires i <= |y| && forall k :: i <= k < |y| ==> DistinctSiblings(y[k], cs)
    ensures Runs(Arr(Elements(y, cs)[..i]), Appended(y, i), Arr(Elements(y, cs)), cs)
    decreases |y| - i
  {
    var e := Elements(y, cs);
    if i == |y| {
      assert e[..i] == e;
    } else {
      DashReads();
      assert e[..i + 1] == e[..i] + [e[i]];
      assert Parent(["-"]) == [] && Last(["-"]) == "-";
      assert Turns(Arr(e[..i]), Added(["-"], y[i]), Arr(e[..i + 1]), cs);
      AppendedRun(y, i + 1, cs);
      RunsFirst(Arr(e[..i]), Added(["-"], y[i]), Arr(e[..i + 1]), Appended(y, i + 1), Arr(e), cs);
    }
  }

  /** The array once its first `i` elements have their new value. */
  function Partly(x: seq<Json>, y: seq<Json>, i: nat, cs: bool): Doc
    requires i <= |x| && i <= |y|
  {
    Arr(Elements(y, cs)[..i] + Elements(x, cs)[i..])
  }

  lemma PartlyNext(x: seq<Json>, y: seq<Json>, i: nat, cs: bool)
    requires i < |x| && i < |y| && i < SIZE_LIMIT
    ensures DocChild(Partly(x, y, i, cs), Decimal(i), cs) == Some(Meaning(x[i], cs))
    ensures PutChild(Partly(x, y, i, cs), Decimal(i), Meaning(y[i], cs), cs) == Partly(x, y, i + 1, cs)
  {
    IndexReads(i);
    var e, f := Elements(x, cs), Elements(y, cs);
    assert f[..i + 1] == f[..i] + [f[i]] && e[i..] == [e[i]] + e[i + 1..];
    assert (f[..i] + e[i..])[i := f[i]] == f[..i + 1] + e[i + 1..];
  }

  predicate AllReady(items: seq<Json>, cs: bool) {
    |items| < SIZE_LIMIT && forall i :: 0 <= i < |items| ==> Ready(items[i], cs)
  }

  lemma {:induction false} ElementsRun(x: seq<Json>, y: seq<Json>, i: nat, cs: bool)
    requires AllReady(x, cs) && AllReady(y, cs) && i <= |x| && i <= |y|
    ensures Runs(Partly(x, y, i, cs), ElementChanges(x, y, i, cs), Arr(Elements(y, cs)), cs)
    decreases ItemsSize(x), 1, |x| - i, 0
  {
    var goal := Arr(Elements(y, cs));
    if i < |x| && i < |y| {
      ItemSize(x, x[i]);
      ChangesRun(x[i], y[i], cs);
      PartlyNext(x, y, i, cs);
      RunsBelow(Partly(x, y, i, cs), Decimal(i), Changes(x[i], y[i], cs), Meaning(y[i], cs), cs);
      ElementsRun(x, y, i + 1, cs);
      RunsJoin(Partly(x, y, i, cs), AllBelow(Decimal(i), Changes(x[i], y[i], cs)), Partly(x, y, i + 1, cs),
               ElementChanges(x, y, i + 1, cs), goal, cs);
    } else {
      LeftoversRun(x, y, i, cs);
    }
  }

  lemma LeftoversRun(x: seq<Json>, y: seq<Json>, i: nat, cs: bool)
    requires AllReady(y, cs) && i <= |x| && i <= |y| && (i == |x| || i == |y|)
    ensures Runs(Partly(x, y, i, cs), Dropped(i, |x| - i) + Appended(y, i), Arr(Elements(y, cs)), cs)
  {
    var kept, gone := Elements(y, cs)[..i], Elements(x, cs)[i..];
    DroppedRun(kept, gone, cs);
    AppendedRun(y, i, cs);
    RunsJoin(Arr(kept + gone), Dropped(i, |x| - i), Arr(kept), Appended(y, i), Arr(Elements(y, cs)), cs);
  }

  // ---------- objects ----------

  predicate AllMembersReady(s: seq<Member<Json>>, cs: bool) {
    StrictlyIncreasing(s, cs) && forall i :: 0 <= i < |s| ==> Ready(s[i].value, cs)
  }

  lemma HeadReady(s: seq<Member<Json>>, cs: bool)
    requires AllMembersReady(s, cs) && s != []
    ensures AllMembersReady(s[1..], cs) && Ready(s[0].value, cs)
    ensures Norm(cs, s[0].key) !in Fields(s[1..], cs)
    ensures Fields(s, cs) == Fields(s[1..], cs)[Norm(cs, s[0].key) := Meaning(s[0].value, cs)]
  {
    TailIncreasing(s, cs);
  }

  /** The object part way through: `done` is final, the members in `s` are still the old ones. */
  function Between(done: map<string, Doc>, s: seq<Member<Json>>, cs: bool): Doc {
    Obj(done + Fields(s, cs))
  }

  lemma RemoveTurns(done: map<string, Doc>, s: seq<Member<Json>>, cs: bool)
    requires AllMembersReady(s, cs) && s != [] && Norm(cs, s[0].key) !in done
    ensures Turns(Between(done, s, cs), Removed([s[0].key]), Between(done, s[1..], cs), cs)
  {
    HeadReady(s, cs);
    var k, path := s[0].key, [s[0].key];
    assert Parent(path) == [] && Last(path) == k;
    assert (done + Fields(s, cs)) - {Norm(cs, k)} == done + Fields(s[1..], cs);
  }

  lemma AddTurns(done: map<string, Doc>, s: seq<Member<Json>>, m: Member<Json>, cs: bool)
    requires DistinctSiblings(m.value, cs) && Norm(cs, m.key) !in Fields(s, cs)
    ensures Turns(Between(done, s, cs), Added([m.key], m.value), Between(done[Norm(cs, m.key) := Meaning(m.value, cs)], s, cs), cs)
  {
    var k, path := Norm(cs, m.key), [m.key];
    assert Parent(path) == [] && Last(path) == m.key;
    var v := Meaning(m.value, cs);
    assert (done + Fields(s, cs))[k := v] == done[k := v] + Fields(s, cs);
  }

  lemma PairLeadsDown(done: map<string, Doc>, s: seq<Member<Json>>, v: Doc, cs: bool)
    requires AllMembersReady(s, cs) && s != []
    ensures DocChild(Between(done, s, cs), s[0].key, cs) == Some(Meaning(s[0].value, cs))
    ensures PutChild(Between(done, s, cs), s[0].key, v, cs) == Between(done[Norm(cs, s[0].key) := v], s[1..], cs)
  {
    HeadReady(s, cs);
    var k := Norm(cs, s[0].key);
    assert (done + Fields(s, cs))[k := v] == done[k := v] + Fields(s[1..], cs);
  }

  /** `done` holds nothing that is still to come. */
  predicate Apart2(done: map<string, Doc>, s: seq<Member<Json>>, cs: bool) {
    forall k :: k in done ==> k !in Fields(s, cs)
  }

  lemma Advance(done: map<string, Doc>, m: Member<Json>, rest: seq<Member<Json>>, cs: bool)
    requires Norm(cs, m.key) !in done && Norm(cs, m.key) !in Fields(rest, cs)
    ensures var k, v := Norm(cs, m.key), Meaning(m.value, cs);
      done[k := v] + Fields(rest, cs) == done + Fields(rest, cs)[k := v]
  {
  }

  lemma {:induction false} MembersRun(done: map<string, Doc>, s: seq<Member<Json>>, t: seq<Member<Json>>, cs: bool)
    requires AllMembersReady(s, cs) && AllMembersReady(t, cs)
    requires Apart2(done, s, cs) && Apart2(done, t, cs)
    ensures Runs(Between(done, s, cs), MemberChanges(s, t, cs), Between(done, t, cs), cs)
    decreases MembersSize(s), 1, |s| + |t|, 1
  {
    if s == [] && t == [] {
    } else if s == [] || (t != [] && Before(t[0], s[0], cs)) {
      AddRun(done, s, t, cs);
    } else if t == [] || Before(s[0], t[0], cs) {
      RemoveRun(done, s, t, cs);
    } else {
      PairRun(done, s, t, cs);
    }
  }

  lemma {:induction false} AddRun(done: map<string, Doc>, s: seq<Member<Json>>, t: seq<Member<Json>>, cs: bool)
    requires AllMembersReady(s, cs) && AllMembersReady(t, cs)
    requires Apart2(done, s, cs) && Apart2(done, t, cs)
    requires t != [] && (s == [] || Before(t[0], s[0], cs))
    ensures Runs(Between(done, s, cs), MemberChanges(s, t, cs), Between(done, t, cs), cs)
    decreases MembersSize(s), 1, |s| + |t|, 0
  {
    var k, v := Norm(cs, t[0].key), Meaning(t[0].value, cs);
    HeadReady(t, cs);
    AbsentBelow(s, k, cs);
    AddTurns(done, s, t[0], cs);
    MembersRun(done[k := v], s, t[1..], cs);
    Advance(done, t[0], t[1..], cs);
    RunsFirst(Between(done, s, cs), Added([t[0].key], t[0].value), Between(done[k := v], s, cs),
              MemberChanges(s, t[1..], cs), Between(done, t, cs), cs);
  }

  lemma {:induction false} RemoveRun(done: map<string, Doc>, s: seq<Member<Json>>, t: seq<Member<Json>>, cs: bool)
    requires AllMembersReady(s, cs) && AllMembersReady(t, cs)
    requires Apart2(done, s, cs) && Apart2(done, t, cs)
    requires s != [] && (t == [] || Before(s[0], t[0], cs))
    ensures Runs(Between(done, s, cs), MemberChanges(s, t, cs), Between(done, t, cs), cs)
    decreases MembersSize(s), 1, |s| + |t|, 0
  {
    HeadReady(s, cs);
    if t != [] {
      LessTotal(Norm(cs, s[0].key), Norm(cs, t[0].key));
    }
    RemoveTurns(done, s, cs);
    MembersRun(done, s[1..], t, cs);
    RunsFirst(Between(done, s, cs), Removed([s[0].key]), Between(done, s[1..], cs),
              MemberChanges(s[1..], t, cs), Between(done, t, cs), cs);
  }

  lemma {:induction false} PairRun(done: map<string, Doc>, s: seq<Member<Json>>, t: seq<Member<Json>>, cs: bool)
    requires AllMembersReady(s, cs) && AllMembersReady(t, cs)
    requires Apart2(done, s, cs) && Apart2(done, t, cs)
    requires s != [] && t != [] && !Before(s[0], t[0], cs) && !Before(t[0], s[0], cs)
    ensures Runs(Between(done, s, cs), MemberChanges(s, t, cs), Between(done, t, cs), cs)
    decreases MembersSize(s), 1, |s| + |t|, 0
  {
    var k, v := Norm(cs, t[0].key), Meaning(t[0].value, cs);
    LessTotal(Norm(cs, s[0].key), k);
    HeadReady(s, cs);
    HeadReady(t, cs);
    var below := Changes(s[0].value, t[0].value, cs);
    ChangesRun(s[0].value, t[0].value, cs);
    PairLeadsDown(done, s, v, cs);
    RunsBelow(Between(done, s, cs), s[0].key, below, v, cs);
    MembersRun(done[k := v], s[1..], t[1..], cs);
    Advance(done, t[0], t[1..], cs);
    RunsJoin(Between(done, s, cs), AllBelow(s[0].key, below), Between(done[k := v], s[1..], cs),
             MemberChanges(s[1..], t[1..], cs), Between(done, t, cs), cs);
  }

  lemma SortedReady(members: seq<Member<Json>>, cs: bool)
    requires Ready(Object(members), cs)
    ensures AllMembersReady(Sort(members, cs), cs)
    ensures Fields(Sort(members, cs), cs) == Fields(members, cs)
    ensures forall m :: m in Sort(members, cs) ==> m in members
  {
    assert DistinctMembers(members, cs);
    DistinctSortsStrictly(members, cs);
    var s := Sort(members, cs);
    forall i | 0 <= i < |s| ensures Ready(s[i].value, cs) {
      assert s[i] in members;
    }
  }

  // ---------- the whole ----------

  lemma {:induction false} ObjectRun(x: seq<Member<Json>>, y: seq<Member<Json>>, cs: bool)
    requires Ready(Object(x), cs) && Ready(Object(y), cs)
    ensures Runs(Obj(Fields(x, cs)), MemberChanges(Sort(x, cs), Sort(y, cs), cs), Obj(Fields(y, cs)), cs)
    decreases MembersSize(x), 2, 0, 0
  {
    var s, t := Sort(x, cs), Sort(y, cs);
    SortedSize(x, cs);
    SortedReady(x, cs);
    SortedReady(y, cs);
    MembersRun(map[], s, t, cs);
    NothingDone(s, cs);
    NothingDone(t, cs);
  }

  lemma NothingDone(s: seq<Member<Json>>, cs: bool)
    ensures Between(map[], s, cs) == Obj(Fields(s, cs))
  {
    assert map[] + Fields(s, cs) == Fields(s, cs);
  }

  lemma {:induction false} ArrayRun(x: seq<Json>, y: seq<Json>, cs: bool)
    requires AllReady(x, cs) && AllReady(y, cs)
    ensures Runs(Arr(Elements(x, cs)), ElementChanges(x, y, 0, cs), Arr(Elements(y, cs)), cs)
    decreases ItemsSize(x), 2, 0, 0
  {
    ElementsRun(x, y, 0, cs);
    assert Elements(y, cs)[..0] + Elements(x, cs)[0..] == Elements(x, cs);
  }

  /** The changes lead from the meaning of `from` to the meaning of `to`, whatever the names are, as RFC 6902 reads them. */
  lemma {:induction false} ChangesRun(from: Json, to: Json, cs: bool)
    requires Ready(from, cs) && Ready(to, cs)
    ensures Runs(Meaning(from, cs), Changes(from, to, cs), Meaning(to, cs), cs)
    decreases Size(from), 0, 0, 0
  {
    match (from, to)
    case (Array(x), Array(y)) => ArrayRun(x, y, cs);
    case (Object(x), Object(y)) => ObjectRun(x, y, cs);
    case (_, _) =>
      if from != to {
        ReplacedRun(from, to, cs);
      }
  }

  lemma ReplacedRun(from: Json, to: Json, cs: bool)
    requires Ready(to, cs)
    ensures Runs(Meaning(from, cs), [Replaced([], to)], Meaning(to, cs), cs)
  {
    var c := Replaced([], to);
    assert Turns(Meaning(from, cs), c, Meaning(to, cs), cs);
    RunsFirst(Meaning(from, cs), c, Meaning(to, cs), [], Meaning(to, cs), cs);
    assert [c] + [] == [c];
  }

  lemma WrittenFields(c: Change, cs: bool)
    ensures ObjectItem(Written("", c), "path", cs) == Some(String(Render(c.path)))
    ensures ObjectItem(Written("", c), "op", cs) == Some(String(OpWord(ToOperation(c, cs))))
    ensures DecodePatchOperation(Written("", c), cs) == OpcodeOf(ToOperation(c, cs))
    ensures !c.Removed? ==> ObjectItem(Written("", c), "value", cs) == Some(c.value)
  {
    var m := Written("", c).members;
    assert |"op"| == 2 && |"path"| == 4 && |"value"| == 5;
    assert m[1..][0] == m[1] && m[0] == Member("op", m[0].value) && m[1] == Member("path", m[1].value);
    assert KeyIndex(m, "op", cs) == 0;
    assert KeyIndex(m[1..], "path", cs) == 0;
    assert KeyIndex(m, "path", cs) == 1;
    assert "" + Render(c.path) == Render(c.path);
    DecodesWord(Written("", c), ToOperation(c, cs), cs);
    if !c.Removed? {
      assert m[1..][1..][0] == m[2] == Member("value", c.value);
      assert KeyIndex(m[1..][1..], "value", cs) == 0;
      assert KeyIndex(m[1..], "value", cs) == 1;
      assert KeyIndex(m, "value", cs) == 2;
    }
  }

  /** The operation object spells out the operation. */
  lemma WrittenSays(c: Change, cs: bool)
    requires !c.Removed? ==> DistinctSiblings(c.value, cs)
    ensures Says(Written("", c), ToOperation(c, cs), cs)
  {
    WrittenFields(c, cs);
  }
}
