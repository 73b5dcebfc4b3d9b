/** Which two documents the generated patches lead from one to the other whatever the order of members in the copy. */
module JsonPatchCopies {
  import opened CStrings
  import opened JsonTrees
  import opened JsonPointer
  import opened JsonPointerLaws
  import opened PointerDecode
  import opened MergeSort
  import opened JsonCompare
  import opened Rfc6902
  import opened JsonPatchApply
  import opened JsonPatchRefines
  import opened JsonPatchGenerate
  import opened JsonPatchChanges
  import opened JsonPatchRuns
  import opened JsonPatchMembers
  import opened JsonPatchObjects
  import opened JsonPatchRoundTrip
  import opened DecodedNames
  import opened NameRuns

  /** None of the names is removed or replaced, or all of them are, and only the last one replaced. */
  predicate RowWorks(row: seq<string>, takers: seq<Op>) {
    takers == [] || (|takers| == |row| && forall i :: 0 <= i < |takers| - 1 ==> !takers[i].Swap?)
  }

  predicate RowsWork(x: seq<Member<Json>>, changes: seq<Change>, cs: bool) {
    forall m | m in x :: RowWorks(Row(x, Lower(m.key), cs), Takers(OpsOf(changes, Lower(m.key), cs)))
  }

  /**
   Of every two objects that are compared: the names that are added, removed or replaced survive being written into a
   pointer and decoded in place; and of the names of the first that are equal up to letter case, none is removed or replaced,
   or all are, and only the greatest of them replaced.
   */
  predicate Workable(from: Json, to: Json, cs: bool)
    decreases from, 0
  {
    match (from, to)
    case (Array(x), Array(y)) => forall i | 0 <= i < |x| && i < |y| :: Workable(x[i], y[i], cs)
    case (Object(x), Object(y)) =>
      var changes := MemberChanges(Sort(x, cs), Sort(y, cs), cs);
      EndsRestored(changes) && RowsWork(x, changes, cs) && PairsWork(x, y, cs)
    case (_, _) => true
  }

  predicate PairsWork(x: seq<Member<Json>>, y: seq<Member<Json>>, cs: bool)
    decreases x, 2
  {
    forall m, n | m in x && n in y && Norm(cs, m.key) == Norm(cs, n.key) :: PairWorks(m, n, cs)
  }

  predicate PairWorks(m: Member<Json>, n: Member<Json>, cs: bool)
    decreases m.value, 1
  {
    Workable(m.value, n.value, cs)
  }

  // ---------- rows ----------

  /** Different names, as many as there are in another row, and all of them in it: it is the same row, in some order. */
  lemma Pigeons(a: seq<string>, b: seq<string>, x: string)
    requires Distinct(a) && Distinct(b) && |a| >= |b| && (forall n :: n in a ==> n in b) && x in b
    ensures x in a
  {
    if x !in a {
      AppendDistinct(a, x);
      CountAtMost(a + [x], {}, b);
      CountNone(a + [x]);
    }
  }

  lemma SameLength(a: seq<string>, b: seq<string>)
    requires Distinct(a) && Distinct(b) && forall n :: n in a ==> n in b
    ensures |a| <= |b|
  {
    CountAtMost(a, {}, b);
    CountNone(a);
  }

  lemma TakersWithin(row: seq<string>, ops: seq<Op>)
    requires Sound(row, ops)
    ensures Distinct(Names(Takers(ops))) && |Takers(ops)| <= |row| && forall n :: n in Names(Takers(ops)) ==> n in row
  {
    var takers := Takers(ops);
    TakersDistinct(ops);
    forall n | n in Names(takers) ensures n in row {
      var i :| 0 <= i < |takers| && Names(takers)[i] == n;
      assert takers[i] in takers;
    }
    SameLength(Names(takers), row);
  }

  lemma WorkingRowStands(row: seq<string>, copy: seq<string>, ops: seq<Op>)
    requires Sound(row, ops) && Distinct(copy) && (forall n :: n in copy <==> n in row) && RowWorks(row, Takers(ops))
    ensures Standing(copy, Takers(ops))
  {
    var takers := Takers(ops);
    TakersWithin(row, ops);
    SameLength(row, copy);
    SameLength(copy, row);
    if takers != [] {
      forall i | 0 <= i < |takers| ensures copy[i] in Names(takers) {
        Pigeons(Names(takers), row, copy[i]);
      }
      assert copy[..|copy|] == copy;
      var last := |takers| - 1;
      assert Names(takers)[last] == takers[last].name;
    }
  }

  /** A row with a name that stays, and stands in front. */
  lemma StayerInFront(a: string, rest: seq<string>, takers: seq<Op>)
    requires takers != [] && a !in Names(takers)
    ensures !Standing([a] + rest, takers)
  {
    assert ([a] + rest)[0] == a;
  }

  /** A row with a name that comes again too early, and stands at the end. */
  lemma ComerAtEnd(a: string, rest: seq<string>, takers: seq<Op>, i: nat)
    requires a !in rest && i < |takers| && i < |rest| && takers[i] == Swap(a)
    ensures !Standing(rest + [a], takers)
  {
    assert (rest + [a])[..i + 1] == rest[..i + 1];
  }

  // ---------- copies ----------

  /** The member at `i` moved to the front, or to the end. */
  function Moved(x: seq<Member<Json>>, i: nat, front: bool): (r: seq<Member<Json>>)
    requires i < |x|
  {
    if front then [x[i]] + RemoveAt(x, i) else RemoveAt(x, i) + [x[i]]
  }

  lemma MovedCopy(x: seq<Member<Json>>, i: nat, front: bool, cs: bool)
    requires i < |x| && DistinctSiblings(Object(x), cs)
    ensures IsCopy(Object(Moved(x, i, front)), Object(x), cs)
  {
    var d := Moved(x, i, front);
    assert x == x[..i] + [x[i]] + x[i + 1..];
    assert multiset(d) == multiset(x);
    assert DistinctMembers(x, cs);
    FieldsReorder(x, d, cs);
    forall m | m in d ensures DistinctSiblings(m.value, cs) {
      assert m in multiset(x);
    }
    assert DistinctMembers(d, cs);
  }

  lemma MovedRow(x: seq<Member<Json>>, i: nat, front: bool, k: string, cs: bool)
    requires i < |x| && DistinctUnder(x, cs) && Lower(x[i].key) == k
    ensures var a, rest := Norm(cs, x[i].key), Row(RemoveAt(x, i), k, cs);
      && Row(Moved(x, i, front), k, cs) == (if front then [a] + rest else rest + [a])
      && a !in rest && |rest| == |Row(x, k, cs)| - 1
  {
    var a := Norm(cs, x[i].key);
    if front {
      RowHead(x[i], RemoveAt(x, i), k, cs);
    } else {
      RowAppend(RemoveAt(x, i), x[i], k, cs);
    }
    FieldsAt(x, i, cs);
    RowRemoveExactly(x, x[i].key, k, cs);
    RowDistinct(x, k, cs);
    WithoutNames(Row(x, k, cs), a);
    RowFields(x, k, a, cs);
    LowerNorm(x[i].key, cs);
    WithoutShorter(Row(x, k, cs), a);
  }

  /** A row that does not work fails for some order of the members. */
  lemma BadOrder(x: seq<Member<Json>>, changes: seq<Change>, k: string, cs: bool) returns (i: nat, front: bool)
    requires DistinctUnder(x, cs) && Sound(Row(x, k, cs), OpsOf(changes, k, cs))
    requires !RowWorks(Row(x, k, cs), Takers(OpsOf(changes, k, cs)))
    ensures i < |x| && Lower(x[i].key) == k
    ensures !Standing(Row(Moved(x, i, front), k, cs), Takers(OpsOf(changes, k, cs)))
  {
    var row, takers := Row(x, k, cs), Takers(OpsOf(changes, k, cs));
    TakersWithin(row, OpsOf(changes, k, cs));
    var a: string;
    var turn: nat := 0;
    front := |takers| < |row|;
    if front {
      a := Stayer(row, Names(takers));
    } else {
      turn :| turn < |takers| - 1 && takers[turn].Swap?;
      a := takers[turn].name;
      assert Names(takers)[turn] == a;
    }
    i := MemberOf(x, k, a, cs);
    MovedRow(x, i, front, k, cs);
    var rest := Row(RemoveAt(x, i), k, cs);
    if front {
      StayerInFront(a, rest, takers);
    } else {
      ComerAtEnd(a, rest, takers, turn);
    }
  }

  lemma Stayer(row: seq<string>, names: seq<string>) returns (a: string)
    requires Distinct(row) && Distinct(names) && |names| < |row|
    ensures a in row && a !in names
  {
    if forall n :: n in row ==> n in names {
      SameLength(row, names);
    }
    a :| a in row && a !in names;
  }

  lemma MemberOf(x: seq<Member<Json>>, k: string, a: string, cs: bool) returns (i: nat)
    requires a in Row(x, k, cs)
    ensures i < |x| && Norm(cs, x[i].key) == a && Lower(x[i].key) == k
  {
    RowFields(x, k, a, cs);
    i := FieldsOnly(x, a, cs);
    LowerNorm(x[i].key, cs);
  }

  // ---------- every copy ----------

  lemma WorkingRowsStand(x: seq<Member<Json>>, d: seq<Member<Json>>, s: seq<Member<Json>>, t: seq<Member<Json>>,
                         changes: seq<Change>, cs: bool)
    requires Walk(d, s, t, changes, cs) && DistinctUnder(x, cs) && Fields(x, cs) == Fields(s, cs) && RowsWork(x, changes, cs)
    ensures RowsStand(d, changes, x, cs)
  {
    WalkLeads(d, s, t, changes, cs);
    forall m | m in x ensures Standing(Row(d, Lower(m.key), cs), Takers(OpsOf(changes, Lower(m.key), cs))) {
      var k := Lower(m.key);
      RowSound(x, changes, Fields(t, cs), k, cs);
      RowDistinct(d, k, cs);
      forall n ensures n in Row(d, k, cs) <==> n in Row(x, k, cs) {
        RowFields(d, k, n, cs);
        RowFields(x, k, n, cs);
      }
      WorkingRowStands(Row(x, k, cs), Row(d, k, cs), OpsOf(changes, k, cs));
    }
  }

  lemma {:induction false} WorkableFits(from: Json, to: Json, doc: Json, cs: bool)
    requires Ready(from, cs) && Ready(to, cs) && IsCopy(doc, from, cs) && Workable(from, to, cs)
    ensures Fit(from, to, doc, cs)
    decreases Size(from)
  {
    match (from, to)
    case (Array(x), Array(y)) =>
      forall i | 0 <= i < |x| && i < |y| ensures Fit(x[i], y[i], doc.items[i], cs) {
        ItemSize(x, x[i]);
        assert Elements(doc.items, cs)[i] == Elements(x, cs)[i];
        DistinctChild(doc, i, cs);
        WorkableFits(x[i], y[i], doc.items[i], cs);
      }
    case (Object(x), Object(y)) =>
      assert DistinctMembers(x, cs) && DistinctMembers(y, cs) && DistinctMembers(doc.members, cs);
      var s := SortedMembers(x, cs);
      var t := SortedMembers(y, cs);
      var changes := MemberChanges(s, t, cs);
      WorkingRowsStand(x, doc.members, s, t, changes, cs);
      forall m, n | m in x && n in y && Norm(cs, m.key) == Norm(cs, n.key) ensures FitHeld(doc, m, n, cs) {
        assert PairWorks(m, n, cs);
        HeldCopy(doc, s, m, cs);
        MemberSize(x, m);
        WorkableFits(m.value, n.value, ObjectItem(doc, m.key, cs).value, cs);
      }
      FitUnfold(x, y, doc, changes, cs);
    case (_, _) =>
  }

  lemma SetCopy(x: seq<Member<Json>>, i: nat, value: Json, cs: bool)
    requires i < |x| && DistinctSiblings(Object(x), cs) && IsCopy(value, x[i].value, cs)
    ensures IsCopy(SetChild(Object(x), i, value), Object(x), cs)
    ensures ObjectItem(SetChild(Object(x), i, value), x[i].key, cs) == Some(value)
  {
    var after := x[i := x[i].(value := value)];
    assert DistinctMembers(x, cs);
    FieldsSet(x, i, value, cs);
    FieldsAt(x, i, cs);
    HeldSet(x, i, value, x[i].key, cs);
    forall m | m in after ensures DistinctSiblings(m.value, cs) {
      assert m == after[i] || m in x;
    }
    assert DistinctMembers(after, cs);
  }

  lemma SetElement(x: seq<Json>, i: nat, value: Json, cs: bool)
    requires i < |x| && DistinctSiblings(Array(x), cs) && IsCopy(value, x[i], cs)
    ensures IsCopy(Array(x[i := value]), Array(x), cs)
  {
    var after := x[i := value];
    forall v | v in after ensures DistinctSiblings(v, cs) {
      assert v == value || v in x;
    }
    assert Elements(after, cs) == Elements(x, cs);
  }

  /** Two objects that do not work, though their members do: an order of the first that does not fit. */
  lemma UnfitOrder(x: seq<Member<Json>>, y: seq<Member<Json>>, cs: bool) returns (doc: Json)
    requires Ready(Object(x), cs) && Ready(Object(y), cs)
    requires !RowsWork(x, MemberChanges(Sort(x, cs), Sort(y, cs), cs), cs)
    ensures IsCopy(doc, Object(x), cs) && !Fit(Object(x), Object(y), doc, cs)
  {
    assert DistinctMembers(x, cs) && DistinctMembers(y, cs);
    var s := SortedMembers(x, cs);
    var t := SortedMembers(y, cs);
    var changes := MemberChanges(s, t, cs);
    var m :| m in x && !RowWorks(Row(x, Lower(m.key), cs), Takers(OpsOf(changes, Lower(m.key), cs)));
    WalkLeads(x, s, t, changes, cs);
    RowSound(x, changes, Fields(t, cs), Lower(m.key), cs);
    var i, front := BadOrder(x, changes, Lower(m.key), cs);
    doc := Object(Moved(x, i, front));
    MovedCopy(x, i, front, cs);
    assert !RowsStand(doc.members, changes, x, cs);
    FitUnfold(x, y, doc, changes, cs);
  }

  /** Documents that do not work have a copy that does not fit. */
  lemma {:induction false} UnfitCopy(from: Json, to: Json, cs: bool) returns (doc: Json)
    requires Ready(from, cs) && Ready(to, cs) && !Workable(from, to, cs)
    ensures IsCopy(doc, from, cs) && !Fit(from, to, doc, cs)
    decreases Size(from), 1
  {
    match (from, to)
    case (Array(x), Array(y)) =>
      var i :| 0 <= i < |x| && i < |y| && !Workable(x[i], y[i], cs);
      ItemSize(x, x[i]);
      var bad := UnfitCopy(x[i], y[i], cs);
      doc := Array(x[i := bad]);
      SetElement(x, i, bad, cs);
      assert doc.items[i] == bad;
    case (Object(x), Object(y)) =>
      doc := UnfitObject(x, y, cs);
  }

  lemma {:induction false} UnfitObject(x: seq<Member<Json>>, y: seq<Member<Json>>, cs: bool) returns (doc: Json)
    requires Ready(Object(x), cs) && Ready(Object(y), cs) && !Workable(Object(x), Object(y), cs)
    ensures IsCopy(doc, Object(x), cs) && !Fit(Object(x), Object(y), doc, cs)
    decreases Size(Object(x)), 0
  {
    var changes := MemberChanges(Sort(x, cs), Sort(y, cs), cs);
    if !EndsRestored(changes) {
      doc := Object(x);
    } else if !RowsWork(x, changes, cs) {
      doc := UnfitOrder(x, y, cs);
    } else {
      WorkUnfold(x, y, changes, cs);
      var m, n :| m in x && n in y && Norm(cs, m.key) == Norm(cs, n.key) && !PairWorks(m, n, cs);
      MemberSize(x, m);
      MemberReady(x, m, cs);
      MemberReady(y, n, cs);
      var bad := UnfitCopy(m.value, n.value, cs);
      doc := UnfitMember(x, y, m, n, bad, cs);
    }
  }

  lemma WorkUnfold(x: seq<Member<Json>>, y: seq<Member<Json>>, changes: seq<Change>, cs: bool)
    requires changes == MemberChanges(Sort(x, cs), Sort(y, cs), cs)
    ensures Workable(Object(x), Object(y), cs) <==> EndsRestored(changes) && RowsWork(x, changes, cs) && PairsWork(x, y, cs)
  {
  }

  lemma MemberReady(x: seq<Member<Json>>, m: Member<Json>, cs: bool)
    requires Ready(Object(x), cs) && m in x
    ensures Ready(m.value, cs)
  {
    assert DistinctMembers(x, cs);
  }

  lemma UnfitMember(x: seq<Member<Json>>, y: seq<Member<Json>>, m: Member<Json>, n: Member<Json>, bad: Json, cs: bool)
    returns (doc: Json)
    requires DistinctSiblings(Object(x), cs) && m in x && n in y && Norm(cs, m.key) == Norm(cs, n.key)
    requires IsCopy(bad, m.value, cs) && !Fit(m.value, n.value, bad, cs)
    ensures IsCopy(doc, Object(x), cs) && !Fit(Object(x), Object(y), doc, cs)
  {
    var i :| 0 <= i < |x| && x[i] == m;
    doc := SetChild(Object(x), i, bad);
    SetCopy(x, i, bad, cs);
    assert !FitHeld(doc, m, n, cs);
    FitUnfold(x, y, doc, MemberChanges(Sort(x, cs), Sort(y, cs), cs), cs);
  }

  // ---------- the result has distinct names ----------

  lemma {:induction false} PutDistinct(j: Json, pos: Position, node: Json, cs: bool)
    requires DistinctSiblings(j, cs) && DistinctSiblings(node, cs) && IsNode(j, pos)
    ensures DistinctSiblings(Put(j, pos, node), cs)
    decreases |pos|
  {
    if pos != [] {
      var child := Put(Children(j)[pos[0]], pos[1..], node);
      DistinctChild(j, pos[0], cs);
      PutDistinct(Children(j)[pos[0]], pos[1..], node, cs);
      SetChildDistinct(j, pos[0], child, cs);
    }
  }

  lemma AddDistinct(j: Json, pos: Position, name: string, value: Json, cs: bool)
    requires DistinctSiblings(j, cs) && DistinctSiblings(value, cs) && IsNode(j, pos)
    ensures DistinctSiblings(AddChild(j, pos, name, value, cs).doc, cs)
  {
    DistinctAt(j, pos, cs);
    match NodeAt(j, pos)
    case Array(items) =>
      var r := AddElement(items, name, value);
      if r.0 == 0 {
        assert forall x :: x in r.1 ==> x == value || x in items;
        PutDistinct(j, pos, Array(r.1), cs);
      }
    case Object(members) =>
      assert DistinctMembers(members, cs);
      SetMemberDistinct(members, name, value, cs);
      PutDistinct(j, pos, Object(SetMember(members, name, value, cs)), cs);
    case _ =>
  }

  lemma DetachDistinct(j: Json, pos: Position, name: string, cs: bool)
    requires DistinctSiblings(j, cs) && IsNode(j, pos)
    ensures var d := DetachChild(j, pos, name); d.Detached? ==> DistinctSiblings(d.rest, cs)
  {
    DistinctAt(j, pos, cs);
    match NodeAt(j, pos)
    case Array(items) =>
      var i := IndexToken(Segment(name));
      if i.Some? && i.value < |items| {
        PutDistinct(j, pos, Array(RemoveAt(items, i.value)), cs);
      }
    case Object(members) =>
      var i := KeyIndex(members, name, false);
      assert DistinctMembers(members, cs);
      if i < |members| {
        DistinctRemove(members, i, cs);
        assert DistinctMembers(RemoveAt(members, i), cs);
        PutDistinct(j, pos, Object(RemoveAt(members, i)), cs);
      }
    case _ =>
  }

  lemma AddsDistinct(j: Json, path: seq<string>, value: Json, cs: bool)
    requires DistinctSiblings(j, cs) && DistinctSiblings(value, cs) && path != []
    ensures Adds(j, path, value, cs).Some? ==> DistinctSiblings(Adds(j, path, value, cs).value, cs)
  {
    Unrendered(j, path, value, cs);
    var pos := Locate(j, Render(Parent(path)), cs);
    if pos.Some? {
      AddDistinct(j, pos.value, Decoded(Last(path)), value, cs);
    }
  }

  lemma DetachesDistinct(j: Json, path: seq<string>, cs: bool)
    requires DistinctSiblings(j, cs) && path != []
    ensures Detaches(j, path, cs).Some? ==> DistinctSiblings(Detaches(j, path, cs).value, cs)
  {
    Unrendered(j, path, Null, cs);
    var pos := Locate(j, Render(Parent(path)), cs);
    if pos.Some? {
      DetachDistinct(j, pos.value, Decoded(Last(path)), cs);
    }
  }

  /** The value that is added is one of distinct names, and only replacing is done to the whole. */
  predicate Proper(c: Change, cs: bool) {
    (c.path != [] || c.Replaced?) && (!c.Removed? ==> DistinctSiblings(c.value, cs))
  }

  predicate AllProper(changes: seq<Change>, cs: bool) {
    forall i :: 0 <= i < |changes| ==> Proper(changes[i], cs)
  }

  lemma StepDistinct(j: Json, c: Change, r: Json, cs: bool)
    requires DistinctSiblings(j, cs) && Proper(c, cs) && Stepped(j, c, cs) == Some(r)
    ensures DistinctSiblings(r, cs)
  {
    if c.path == [] {
      ReplaceAll(j, c.value, cs);
    } else {
      SteppedIs(j, c, cs);
      DetachesDistinct(j, c.path, cs);
      match c
      case Added(path, value) => AddsDistinct(j, path, value, cs);
      case Removed(_) =>
      case Replaced(path, value) => AddsDistinct(Detaches(j, path, cs).value, path, value, cs);
    }
  }

  lemma {:induction false} RunKeepsDistinct(j: Json, changes: seq<Change>, r: Json, cs: bool)
    requires DistinctSiblings(j, cs) && AllProper(changes, cs) && RunOf(j, changes, cs) == Some(r)
    ensures DistinctSiblings(r, cs)
    decreases |changes|
  {
    if changes != [] {
      assert Proper(changes[0], cs);
      var next := Stepped(j, changes[0], cs).value;
      StepDistinct(j, changes[0], next, cs);
      RunNext(j, changes, next, cs);
      RunKeepsDistinct(next, changes[1..], r, cs);
    }
  }

  lemma BelowProper(token: string, changes: seq<Change>, cs: bool)
    requires AllProper(changes, cs)
    ensures AllProper(AllBelow(token, changes), cs)
  {
    forall i | 0 <= i < |changes| ensures Proper(Below(token, changes[i]), cs) {
      assert Proper(changes[i], cs);
    }
  }

  lemma {:induction false} DroppedProper(index: nat, count: int, cs: bool)
    ensures AllProper(Dropped(index, count), cs)
  {
    if count > 0 {
      DroppedProper(index, count - 1, cs);
    }
  }

  lemma {:induction false} AppendedProper(y: seq<Json>, i: nat, cs: bool)
    requires forall k :: i <= k < |y| ==> DistinctSiblings(y[k], cs)
    ensures AllProper(Appended(y, i), cs)
    decreases |y| - i
  {
    if i < |y| {
      AppendedProper(y, i + 1, cs);
    }
  }

  lemma {:induction false} ElementsProper(x: seq<Json>, y: seq<Json>, i: nat, cs: bool)
    requires forall k :: 0 <= k < |y| ==> DistinctSiblings(y[k], cs)
    ensures AllProper(ElementChanges(x, y, i, cs), cs)
    decreases ItemsSize(x), 1, |x| - i
  {
    if i < |x| && i < |y| {
      ItemSize(x, x[i]);
      ChangesProper(x[i], y[i], cs);
      BelowProper(Decimal(i), Changes(x[i], y[i], cs), cs);
      ElementsProper(x, y, i + 1, cs);
    } else {
      DroppedProper(i, |x| - i, cs);
      AppendedProper(y, i, cs);
    }
  }

  lemma {:induction false} MembersProper(s: seq<Member<Json>>, t: seq<Member<Json>>, cs: bool)
    requires forall n :: n in t ==> DistinctSiblings(n.value, cs)
    ensures AllProper(MemberChanges(s, t, cs), cs)
    decreases MembersSize(s), 1, |s| + |t|
  {
    if s == [] && t == [] {
    } else if s == [] || (t != [] && Before(t[0], s[0], cs)) {
      MembersProper(s, t[1..], cs);
    } else if t == [] || Before(s[0], t[0], cs) {
      MembersProper(s[1..], t, cs);
    } else {
      ChangesProper(s[0].value, t[0].value, cs);
      BelowProper(s[0].key, Changes(s[0].value, t[0].value, cs), cs);
      MembersProper(s[1..], t[1..], cs);
    }
  }

  lemma {:induction false} ChangesProper(from: Json, to: Json, cs: bool)
    requires DistinctSiblings(to, cs)
    ensures AllProper(Changes(from, to, cs), cs)
    decreases Size(from), 0, 0
  {
    match (from, to)
    case (Array(x), Array(y)) => ElementsProper(x, y, 0, cs);
    case (Object(x), Object(y)) =>
      SortedSize(x, cs);
      assert DistinctMembers(y, cs);
      forall n | n in Sort(y, cs) ensures DistinctSiblings(n.value, cs) {
        WasIn(y, n, cs);
      }
      MembersProper(Sort(x, cs), Sort(y, cs), cs);
    case (_, _) =>
  }

  /** The tree that is left has distinct sibling names, so compare_json finds it equal when it means the same. */
  lemma RightIsEqual(from: Json, to: Json, doc: Json, cs: bool)
    requires Ready(to, cs) && DistinctSiblings(doc, cs)
    ensures var r := ApplyAll(doc, AllWritten("", Changes(from, to, cs)), cs);
      r.status == 0 ==> DistinctSiblings(r.doc, cs) && (JsonEqual(r.doc, to, cs) <==> Meaning(r.doc, cs) == Meaning(to, cs))
  {
    var changes := Changes(from, to, cs);
    var r := ApplyAll(doc, AllWritten("", changes), cs);
    RunIsApplyAll(doc, changes, cs);
    if r.status == 0 {
      ChangesProper(from, to, cs);
      RunKeepsDistinct(doc, changes, r.doc, cs);
      JsonEqualIffSameMeaning(r.doc, to, cs);
    }
  }

  /** What generate-then-apply is for. */
  predicate Right(from: Json, to: Json, doc: Json, cs: bool) {
    var r := ApplyAll(doc, AllWritten("", Changes(from, to, cs)), cs);
    r.status == 0 && Meaning(r.doc, cs) == Meaning(to, cs)
  }

  /** The generated patches turn every copy of `from` into a tree equal to `to`, with status 0, exactly when the two work. */
  lemma EveryCopyIff(from: Json, to: Json, cs: bool)
    requires Ready(from, cs) && Ready(to, cs)
    ensures (forall doc :: IsCopy(doc, from, cs) ==> Right(from, to, doc, cs)) <==> Workable(from, to, cs)
  {
    if Workable(from, to, cs) {
      forall doc | IsCopy(doc, from, cs) ensures Right(from, to, doc, cs) {
        GenerateThenApply(from, to, doc, cs);
      }
    } else {
      var doc := UnfitCopy(from, to, cs);
      GenerateThenApplyIff(from, to, doc, cs);
    }
  }

  /** Generate, then apply, for documents that work. */
  lemma GenerateThenApply(from: Json, to: Json, doc: Json, cs: bool)
    requires Ready(from, cs) && Ready(to, cs) && IsCopy(doc, from, cs) && Workable(from, to, cs)
    ensures Right(from, to, doc, cs)
    ensures JsonEqual(ApplyAll(doc, AllWritten("", Changes(from, to, cs)), cs).doc, to, cs)
  {
    RightIsEqual(from, to, doc, cs);
    WorkableFits(from, to, doc, cs);
    GenerateThenApplyIff(from, to, doc, cs);
  }

  /** Renaming a member in letter case only works: the old one goes, and the new one comes. */
  lemma RenamedByCase(v: Json)
    ensures Workable(Object([Member("A", v)]), Object([Member("a", v)]), true)
  {
    var x, y := [Member("A", v)], [Member("a", v)];
    var gone, new' := Removed(["A"]), Added(["a"], v);
    RestorableLetters();
    assert x[1..] == [] && y[1..] == [];
    assert Less("A", "a") && !Less("a", "A");
    assert MemberChanges([], [], true) == [];
    assert MemberChanges([], y, true) == [new'] + [];
    assert MemberChanges(x, y, true) == [gone] + [new'] == [gone, new'];
    RenamedRow(x, gone, new');
    assert "A"[0] != "a"[0];
    WorkUnfold(x, y, [gone, new'], true);
  }

  lemma RestorableLetters()
    ensures Restorable("a") && Restorable("A")
  {
    assert "a"[1..] == "" && "A"[1..] == "";
    EncodePlain("a");
    EncodePlain("A");
  }

  lemma RenamedRow(x: seq<Member<Json>>, gone: Change, new': Change)
    requires |x| == 1 && x[0].key == "A" && gone == Removed(["A"]) && new'.Added? && new'.path == ["a"]
    ensures RowsWork(x, [gone, new'], true)
  {
    var k := Lower("A");
    assert x[1..] == [] && Row(x, k, true) == ["A"] + [] == ["A"];
    assert LowerChar('A') == 'a' && LowerChar('a') == 'a' && Lower("a") == k;
    assert [gone, new'][1..] == [new'] && [new'][1..] == [];
    assert OpsOf([new'], k, true) == [Append("a")] + [];
    assert OpsOf([gone, new'], k, true) == [Pop("A")] + [Append("a")];
    assert ([Pop("A")] + [Append("a")])[1..] == [Append("a")] && [Append("a")][1..] == [];
    assert Takers([Append("a")]) == [];
    assert Takers(OpsOf([gone, new'], k, true)) == [Pop("A")];
  }
}
