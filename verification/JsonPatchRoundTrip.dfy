/** Applying the generated patches to a copy of `from`: exactly when that gives `to`, up to member order. */
module JsonPatchRoundTrip {
  import opened CStrings
  import opened JsonTrees
  import opened JsonPointer
  import opened JsonPointerLaws
  import opened PointerDecode
  import opened MergeSort
  import opened JsonCompare
  import opened Rfc6902
  import opened JsonPatchApply
  import opened JsonPatchGenerate
  import opened JsonPatchChanges
  import opened JsonPatchRuns
  import opened JsonPatchMembers
  import opened JsonPatchObjects
  import opened DecodedNames

  // ---------- the exact condition ----------

  /**
   What has to hold of `from`, `to` and the copy `doc` of the first. Of every two objects that are compared: the names that
   are added, removed or replaced survive being written into a pointer and decoded in place; and of the members of the copy
   whose names are equal up to letter case, the ones that are removed or replaced stand in front of all others, and one that
   is replaced stands no later than its turn comes.
   */
  predicate Fit(from: Json, to: Json, doc: Json, cs: bool)
    decreases from, 0
  {
    match (from, to, doc)
    case (Array(x), Array(y), Array(d)) => forall i | 0 <= i < |x| && i < |y| && i < |d| :: Fit(x[i], y[i], d[i], cs)
    case (Object(x), Object(y), Object(d)) =>
      var changes := MemberChanges(Sort(x, cs), Sort(y, cs), cs);
      && EndsRestored(changes) && RowsStand(d, changes, x, cs)
      && AllHeld(doc, x, y, cs)
    case (_, _, _) => true
  }

  predicate AllHeld(doc: Json, x: seq<Member<Json>>, y: seq<Member<Json>>, cs: bool)
    decreases x, 2
  {
    forall m, n | m in x && n in y && Norm(cs, m.key) == Norm(cs, n.key) :: FitHeld(doc, m, n, cs)
  }

  /** So it is for what the copy holds under the name of two members. */
  predicate FitHeld(doc: Json, m: Member<Json>, n: Member<Json>, cs: bool)
    decreases m.value, 1
  {
    var held := ObjectItem(doc, m.key, cs);
    held.Some? ==> Fit(m.value, n.value, held.value, cs)
  }

  /** `doc` means `from`, members in any order. */
  predicate IsCopy(doc: Json, from: Json, cs: bool) {
    DistinctSiblings(doc, cs) && Meaning(doc, cs) == Meaning(from, cs)
  }

  // ---------- arrays ----------

  /** The change appends, or is about an element behind the one at `i`. */
  predicate Later(c: Change, i: nat) {
    c.path != [] &&
    if c.path == ["-"] then c.Added?
    else (|c.path| > 1 || !c.Added?) && exists q: nat :: i < q < SIZE_LIMIT && c.path[0] == Decimal(q)
  }

  lemma IndexRead(q: nat)
    requires q < SIZE_LIMIT
    ensures IndexToken(Decimal(q)) == Some(q) && Encode(Decimal(q)) == Decimal(q) && Decoded(Decimal(q)) == Decimal(q)
    ensures Segment(Decimal(q)) == Decimal(q) && Decimal(q) != "-"
  {
    IndexReads(q);
    DecimalSane(q);
    DecodeUndoesEncodeIff(Decimal(q));
    SegmentOf(Encode(Decimal(q)), "");
    assert Decimal(q) + "" == Decimal(q);
  }

  lemma ElementDetach(items: seq<Json>, q: nat, cs: bool)
    requires q < SIZE_LIMIT
    ensures Detaches(Array(items), [Decimal(q)], cs) == if q < |items| then Some(Array(RemoveAt(items, q))) else None
  {
    Unrendered(Array(items), [Decimal(q)], Null, cs);
    assert Parent([Decimal(q)]) == [] && Last([Decimal(q)]) == Decimal(q);
    IndexRead(q);
  }

  lemma ElementAdd(items: seq<Json>, q: nat, value: Json, cs: bool)
    requires q < SIZE_LIMIT
    ensures Adds(Array(items), [Decimal(q)], value, cs) ==
            if q <= |items| then Some(Array(items[..q] + [value] + items[q..])) else None
  {
    Unrendered(Array(items), [Decimal(q)], value, cs);
    assert Parent([Decimal(q)]) == [] && Last([Decimal(q)]) == Decimal(q);
    IndexRead(q);
  }

  lemma ElementAppend(items: seq<Json>, value: Json, cs: bool)
    ensures Adds(Array(items), ["-"], value, cs) == Some(Array(items + [value]))
  {
    Unrendered(Array(items), ["-"], value, cs);
    assert Parent(["-"]) == [] && Last(["-"]) == "-";
    DashReads();
    DecodeUndoesEncodeIff("-");
  }

  lemma ElementReplace(items: seq<Json>, q: nat, value: Json, cs: bool)
    requires q < SIZE_LIMIT
    ensures Stepped(Array(items), Replaced([Decimal(q)], value), cs) ==
            if q < |items| then Some(Array(items[q := value])) else None
  {
    SteppedIs(Array(items), Replaced([Decimal(q)], value), cs);
    ElementDetach(items, q, cs);
    if q < |items| {
      var rest := RemoveAt(items, q);
      ElementAdd(rest, q, value, cs);
      assert rest[..q] + [value] + rest[q..] == items[q := value];
    }
  }

  predicate Keeps(j: Json, r: Option<Json>, i: nat) {
    j.Array? && i < |j.items| && (r.Some? ==> r.value.Array? && i < |r.value.items| && r.value.items[i] == j.items[i])
  }

  lemma StepLater(j: Json, c: Change, i: nat, cs: bool)
    requires j.Array? && i < |j.items| && Later(c, i)
    ensures Keeps(j, Stepped(j, c, cs), i)
  {
    var items := j.items;
    if c.path == ["-"] {
      SteppedIs(j, c, cs);
      ElementAppend(items, c.value, cs);
    } else {
      var q: nat :| i < q < SIZE_LIMIT && c.path[0] == Decimal(q);
      if |c.path| == 1 {
        assert c.path == [Decimal(q)];
        SteppedIs(j, c, cs);
        match c
        case Removed(_) => ElementDetach(items, q, cs);
        case Replaced(_, value) => ElementReplace(items, q, value, cs);
      } else {
        InsideBelow(c);
        StepBelow(j, Decimal(q), Inside(c), cs);
        IndexRead(q);
      }
    }
  }

  predicate AllLater(changes: seq<Change>, i: nat) {
    forall k :: 0 <= k < |changes| ==> Later(changes[k], i)
  }

  lemma {:induction false} RunLater(j: Json, changes: seq<Change>, i: nat, cs: bool)
    requires j.Array? && i < |j.items| && AllLater(changes, i)
    ensures Keeps(j, RunOf(j, changes, cs), i)
    decreases |changes|
  {
    if changes != [] {
      assert Later(changes[0], i);
      StepLater(j, changes[0], i, cs);
      var r := Stepped(j, changes[0], cs);
      if r.Some? {
        RunLater(r.value, changes[1..], i, cs);
      }
    }
  }

  lemma {:induction false} DroppedLater(index: nat, count: int, i: nat)
    requires i < index < SIZE_LIMIT
    ensures AllLater(Dropped(index, count), i)
  {
    if count > 0 {
      IndexRead(index);
      assert Later(Removed([Decimal(index)]), i);
      DroppedLater(index, count - 1, i);
    }
  }

  lemma {:induction false} AppendedLater(y: seq<Json>, k: nat, i: nat)
    ensures AllLater(Appended(y, k), i)
    decreases |y| - k
  {
    if k < |y| {
      assert Later(Added(["-"], y[k]), i);
      AppendedLater(y, k + 1, i);
    }
  }

  lemma BelowLater(q: nat, v: Json, w: Json, i: nat, cs: bool)
    requires i < q < SIZE_LIMIT
    ensures AllLater(AllBelow(Decimal(q), Changes(v, w, cs)), i)
  {
    IndexRead(q);
    var changes := Changes(v, w, cs);
    forall k | 0 <= k < |changes| ensures Later(AllBelow(Decimal(q), changes)[k], i) {
      var c := AllBelow(Decimal(q), changes)[k];
      assert c.path[0] == Decimal(q) && c.path != ["-"];
      if Replaces(v, w) {
        assert changes == [Replaced([], w)];
      } else {
        ChangesInside(v, w, cs);
        assert changes[k].path != [];
      }
    }
  }

  lemma {:induction false} ElementsLater(x: seq<Json>, y: seq<Json>, k: nat, i: nat, cs: bool)
    requires |x| < SIZE_LIMIT && |y| < SIZE_LIMIT && i < k
    requires k <= |x| && k <= |y|
    ensures AllLater(ElementChanges(x, y, k, cs), i)
    decreases |x| - k
  {
    if k < |x| && k < |y| {
      ElementsLater(x, y, k + 1, i, cs);
      BelowLater(k, x[k], y[k], i, cs);
    } else {
      DroppedLater(k, |x| - k, i);
      AppendedLater(y, k, i);
    }
  }

  lemma ElementDrop(items: seq<Json>, i: nat, rest: seq<Json>, cs: bool)
    requires i < |items| && i < SIZE_LIMIT && rest == RemoveAt(items, i)
    ensures Stepped(Array(items), Removed([Decimal(i)]), cs) == Some(Array(rest))
  {
    SteppedIs(Array(items), Removed([Decimal(i)]), cs);
    ElementDetach(items, i, cs);
  }

  lemma ElementPush(items: seq<Json>, value: Json, more: seq<Json>, cs: bool)
    requires more == items + [value]
    ensures Stepped(Array(items), Added(["-"], value), cs) == Some(Array(more))
  {
    SteppedIs(Array(items), Added(["-"], value), cs);
    ElementAppend(items, value, cs);
  }

  lemma DropNext(items: seq<Json>, i: nat, rest: seq<Json>)
    requires i < |items| && rest == RemoveAt(items, i)
    ensures |rest| == |items| - 1 && rest[..i] == items[..i]
    ensures Dropped(i, |items| - i) == [Removed([Decimal(i)])] + Dropped(i, |rest| - i)
  {
  }

  /** Taking away what is left over. */
  lemma {:induction false} DroppedRuns(items: seq<Json>, i: nat, changes: seq<Change>, kept: seq<Json>, cs: bool)
    requires i <= |items| && i < SIZE_LIMIT && changes == Dropped(i, |items| - i) && kept == items[..i]
    ensures RunOf(Array(items), changes, cs) == Some(Array(kept))
    decreases |items|
  {
    if i == |items| {
      assert kept == items;
    } else {
      var rest := RemoveAt(items, i);
      DropNext(items, i, rest);
      ElementDrop(items, i, rest, cs);
      DroppedRuns(rest, i, changes[1..], kept, cs);
      RunNext(Array(items), changes, Array(rest), cs);
    }
  }

  lemma PushNext(items: seq<Json>, y: seq<Json>, i: nat, more: seq<Json>)
    requires i < |y| && more == items + [y[i]]
    ensures more + y[i + 1..] == items + y[i..]
    ensures Appended(y, i) == [Added(["-"], y[i])] + Appended(y, i + 1)
  {
  }

  lemma {:induction false} AppendedRuns(items: seq<Json>, y: seq<Json>, i: nat, changes: seq<Change>, all: seq<Json>, cs: bool)
    requires i <= |y| && changes == Appended(y, i) && all == items + y[i..]
    ensures RunOf(Array(items), changes, cs) == Some(Array(all))
    decreases |y| - i
  {
    if i == |y| {
      assert all == items;
    } else {
      var more := items + [y[i]];
      PushNext(items, y, i, more);
      ElementPush(items, y[i], more, cs);
      AppendedRuns(more, y, i + 1, changes[1..], all, cs);
      RunNext(Array(items), changes, Array(more), cs);
    }
  }

  lemma LeftoversRun(items: seq<Json>, y: seq<Json>, i: nat, changes: seq<Change>, cs: bool)
    requires i <= |items| && i <= |y| && i < SIZE_LIMIT && changes == Dropped(i, |items| - i) + Appended(y, i)
    ensures RunOf(Array(items), changes, cs) == Some(Array(items[..i] + y[i..]))
  {
    var kept, all, dropped, appended := items[..i], items[..i] + y[i..], Dropped(i, |items| - i), Appended(y, i);
    DroppedRuns(items, i, dropped, kept, cs);
    AppendedRuns(kept, y, i, appended, all, cs);
    RunJoin(Array(items), dropped, appended, cs);
  }

  /** The walk over two arrays: the elements in front of `i` are done, the others are still those of the copy. */
  predicate Lined(items: seq<Json>, x: seq<Json>, y: seq<Json>, i: nat, cs: bool) {
    && |x| < SIZE_LIMIT && |y| < SIZE_LIMIT && i <= |x| && i <= |y| && |items| == |x|
    && (forall k :: 0 <= k < i ==> Meaning(items[k], cs) == Meaning(y[k], cs))
    && (forall k :: i <= k < |x| ==> Meaning(items[k], cs) == Meaning(x[k], cs))
  }

  predicate ElementRight(item: Json, v: Json, w: Json, cs: bool) {
    Containers(v, w) ==> RightRun(item, Changes(v, w, cs), Meaning(w, cs), cs)
  }

  predicate ElementsRight(items: seq<Json>, x: seq<Json>, y: seq<Json>, i: nat, cs: bool) {
    forall k | i <= k < |x| && k < |y| && k < |items| :: ElementRight(items[k], x[k], y[k], cs)
  }

  lemma LinedEnd(items: seq<Json>, x: seq<Json>, y: seq<Json>, i: nat, cs: bool)
    requires Lined(items, x, y, i, cs) && (i == |x| || i == |y|)
    ensures RightRun(Array(items), ElementChanges(x, y, i, cs), Arr(Elements(y, cs)), cs)
  {
    var changes, r := ElementChanges(x, y, i, cs), items[..i] + y[i..];
    LeftoversRun(items, y, i, changes, cs);
    EndMeans(items, y, i, r, cs);
    EndsRight(Array(items), changes, Array(r), Arr(Elements(y, cs)), cs);
  }

  lemma EndsRight(doc: Json, changes: seq<Change>, r: Json, goal: Doc, cs: bool)
    requires RunOf(doc, changes, cs) == Some(r) && Meaning(r, cs) == goal
    ensures RightRun(doc, changes, goal, cs)
  {
  }

  lemma EndMeans(items: seq<Json>, y: seq<Json>, i: nat, r: seq<Json>, cs: bool)
    requires i <= |items| && i <= |y| && r == items[..i] + y[i..]
    requires forall k :: 0 <= k < i ==> Meaning(items[k], cs) == Meaning(y[k], cs)
    ensures Elements(r, cs) == Elements(y, cs)
  {
    forall k | 0 <= k < |y| ensures Meaning(r[k], cs) == Meaning(y[k], cs) {
    }
  }

  /** One pair of elements. */
  lemma PairRun(items: seq<Json>, v: Json, w: Json, i: nat, cs: bool) returns (item: Option<Json>)
    requires i < |items| && i < SIZE_LIMIT && Meaning(items[i], cs) == Meaning(v, cs)
    ensures RunOf(Array(items), AllBelow(Decimal(i), Changes(v, w, cs)), cs) ==
            if item == None then None else Some(Array(items[i := item.value]))
    ensures item.Some? && Meaning(item.value, cs) == Meaning(w, cs) <==> ElementRight(items[i], v, w, cs)
  {
    var changes := Changes(v, w, cs);
    IndexRead(i);
    if Replaces(v, w) {
      var c := Replaced([Decimal(i)], w);
      assert changes == [Replaced([], w)] && [Decimal(i)] + [] == [Decimal(i)];
      assert AllBelow(Decimal(i), changes) == [c];
      RunOne(Array(items), c, cs);
      ElementReplace(items, i, w, cs);
      item := Some(w);
    } else {
      ChangesInside(v, w, cs);
      RunBelow(Array(items), Decimal(i), i, changes, cs);
      item := RunOf(items[i], changes, cs);
    }
  }

  /** The first pair, and then the others. */
  lemma FirstPair(items: seq<Json>, x: seq<Json>, y: seq<Json>, i: nat, cs: bool) returns (item: Option<Json>)
    requires Lined(items, x, y, i, cs) && i < |x| && i < |y|
    ensures RunOf(Array(items), ElementChanges(x, y, i, cs), cs) ==
            if item == None then None else RunOf(Array(items[i := item.value]), ElementChanges(x, y, i + 1, cs), cs)
    ensures item.Some? && Meaning(item.value, cs) == Meaning(y[i], cs) <==> ElementRight(items[i], x[i], y[i], cs)
  {
    item := PairRun(items, x[i], y[i], i, cs);
    RunJoin(Array(items), AllBelow(Decimal(i), Changes(x[i], y[i], cs)), ElementChanges(x, y, i + 1, cs), cs);
  }

  lemma {:induction false} ElementsIff(items: seq<Json>, x: seq<Json>, y: seq<Json>, i: nat, cs: bool)
    requires Lined(items, x, y, i, cs)
    ensures RightRun(Array(items), ElementChanges(x, y, i, cs), Arr(Elements(y, cs)), cs) <==> ElementsRight(items, x, y, i, cs)
    decreases |x| - i
  {
    if i < |x| && i < |y| {
      var item := FirstPair(items, x, y, i, cs);
      if ElementRight(items[i], x[i], y[i], cs) {
        var next := items[i := item.value];
        ElementsIff(next, x, y, i + 1, cs);
        RightOn(items, next, x, y, i, cs);
      } else {
        WrongPair(items, x, y, i, item, cs);
      }
    } else {
      LinedEnd(items, x, y, i, cs);
    }
  }

  lemma WrongPair(items: seq<Json>, x: seq<Json>, y: seq<Json>, i: nat, item: Option<Json>, cs: bool)
    requires Lined(items, x, y, i, cs) && i < |x| && i < |y| && (item.Some? ==> Meaning(item.value, cs) != Meaning(y[i], cs))
    ensures var r := if item == None then None else RunOf(Array(items[i := item.value]), ElementChanges(x, y, i + 1, cs), cs);
      r.Some? ==> Meaning(r.value, cs) != Arr(Elements(y, cs))
  {
    if item.Some? {
      var next, rest := items[i := item.value], ElementChanges(x, y, i + 1, cs);
      ElementsLater(x, y, i + 1, i, cs);
      RunLater(Array(next), rest, i, cs);
      WrongElement(RunOf(Array(next), rest, cs), next, y, i, cs);
    }
  }

  lemma RightOn(items: seq<Json>, next: seq<Json>, x: seq<Json>, y: seq<Json>, i: nat, cs: bool)
    requires i < |items| && i < |x| && i < |y| && |next| == |items| && forall k :: i < k < |items| ==> next[k] == items[k]
    requires ElementRight(items[i], x[i], y[i], cs)
    ensures ElementsRight(items, x, y, i, cs) <==> ElementsRight(next, x, y, i + 1, cs)
  {
  }

  lemma WrongElement(r: Option<Json>, items: seq<Json>, y: seq<Json>, i: nat, cs: bool)
    requires Keeps(Array(items), r, i) && i < |y| && Meaning(items[i], cs) != Meaning(y[i], cs)
    ensures r.Some? ==> Meaning(r.value, cs) != Arr(Elements(y, cs))
  {
    if r.Some? {
      assert Elements(r.value.items, cs)[i] == Meaning(items[i], cs);
      assert i < |y| && Elements(y, cs)[i] == Meaning(y[i], cs);
    }
  }

  // ---------- the whole ----------

  lemma {:induction false} ArrayFit(x: seq<Json>, y: seq<Json>, doc: Json, cs: bool)
    requires Ready(Array(x), cs) && Ready(Array(y), cs) && IsCopy(doc, Array(x), cs)
    ensures RightRun(doc, Changes(Array(x), Array(y), cs), Meaning(Array(y), cs), cs) <==> Fit(Array(x), Array(y), doc, cs)
    decreases ItemsSize(x), 1
  {
    var d := doc.items;
    forall k | 0 <= k < |x| ensures Meaning(d[k], cs) == Meaning(x[k], cs) {
      assert Elements(d, cs)[k] == Elements(x, cs)[k];
    }
    ElementsIff(d, x, y, 0, cs);
    forall k | 0 <= k < |x| && k < |y| ensures ElementRight(d[k], x[k], y[k], cs) <==> Fit(x[k], y[k], d[k], cs) {
      ItemSize(x, x[k]);
      DistinctChild(doc, k, cs);
      if Containers(x[k], y[k]) {
        FitIff(x[k], y[k], d[k], cs);
      }
    }
  }

  lemma SortedMembers(members: seq<Member<Json>>, cs: bool) returns (s: seq<Member<Json>>)
    requires DistinctMembers(members, cs)
    ensures s == Sort(members, cs) && StrictlyIncreasing(s, cs) && Fields(s, cs) == Fields(members, cs)
    ensures forall m :: m in s <==> m in members
  {
    s := Sort(members, cs);
    DistinctSortsStrictly(members, cs);
    SortedSame(members, cs, cs);
  }

  lemma HeldCopy(doc: Json, s: seq<Member<Json>>, m: Member<Json>, cs: bool)
    requires doc.Object? && DistinctSiblings(doc, cs) && StrictlyIncreasing(s, cs) && m in s
    requires Fields(doc.members, cs) == Fields(s, cs)
    ensures ObjectItem(doc, m.key, cs).Some? && IsCopy(ObjectItem(doc, m.key, cs).value, m.value, cs)
  {
    MemberIsField(s, m, cs);
    FieldsLookup(doc.members, m.key, cs);
    var i := KeyIndex(doc.members, m.key, cs);
    assert doc.members[i] in doc.members;
    DistinctChild(doc, i, cs);
  }

  lemma {:induction false} ObjectFit(x: seq<Member<Json>>, y: seq<Member<Json>>, doc: Json, cs: bool)
    requires Ready(Object(x), cs) && Ready(Object(y), cs) && IsCopy(doc, Object(x), cs)
    ensures RightRun(doc, Changes(Object(x), Object(y), cs), Meaning(Object(y), cs), cs) <==> Fit(Object(x), Object(y), doc, cs)
    decreases MembersSize(x), 1
  {
    assert DistinctMembers(x, cs) && DistinctMembers(y, cs) && DistinctMembers(doc.members, cs);
    var s := SortedMembers(x, cs);
    var t := SortedMembers(y, cs);
    var d, changes := doc.members, MemberChanges(s, t, cs);
    forall m, n | m in x && n in y && Norm(cs, m.key) == Norm(cs, n.key)
      ensures PairRight(d, m, n, cs) <==> FitHeld(doc, m, n, cs)
    {
      HeldCopy(doc, s, m, cs);
      MemberSize(x, m);
      if Containers(m.value, n.value) {
        FitIff(m.value, n.value, ObjectItem(doc, m.key, cs).value, cs);
      }
    }
    if RightRun(doc, changes, Obj(Fields(t, cs)), cs) {
      ObjectOnlyIf(d, s, t, changes, cs);
    }
    if EndsRestored(changes) && RowsStand(d, changes, s, cs) && PairsRight(d, s, t, cs) {
      ObjectIf(d, s, t, changes, cs);
    }
    FitUnfold(x, y, doc, changes, cs);
  }

  lemma FitUnfold(x: seq<Member<Json>>, y: seq<Member<Json>>, doc: Json, changes: seq<Change>, cs: bool)
    requires doc.Object? && changes == MemberChanges(Sort(x, cs), Sort(y, cs), cs)
    ensures Fit(Object(x), Object(y), doc, cs) <==>
      EndsRestored(changes) && RowsStand(doc.members, changes, x, cs) && AllHeld(doc, x, y, cs)
  {
  }

  lemma {:induction false} FitIff(from: Json, to: Json, doc: Json, cs: bool)
    requires Ready(from, cs) && Ready(to, cs) && IsCopy(doc, from, cs)
    ensures RightRun(doc, Changes(from, to, cs), Meaning(to, cs), cs) <==> Fit(from, to, doc, cs)
    decreases Size(from), 0
  {
    match (from, to)
    case (Array(x), Array(y)) => ArrayFit(x, y, doc, cs);
    case (Object(x), Object(y)) => ObjectFit(x, y, doc, cs);
    case (_, _) => LeafFit(from, to, doc, cs);
  }

  lemma LeafFit(from: Json, to: Json, doc: Json, cs: bool)
    requires !Containers(from, to) && DistinctSiblings(to, cs) && IsCopy(doc, from, cs)
    ensures RightRun(doc, Changes(from, to, cs), Meaning(to, cs), cs) && Fit(from, to, doc, cs)
  {
    if from != to {
      RunOne(doc, Replaced([], to), cs);
      ReplaceAll(doc, to, cs);
      assert Changes(from, to, cs) == [Replaced([], to)];
    }
  }

  lemma ReplaceAll(doc: Json, value: Json, cs: bool)
    ensures Stepped(doc, Replaced([], value), cs) == Some(value)
  {
    WrittenFields(Replaced([], value), cs);
  }

  /**
   Generate, then apply: the generated patches turn a copy of `from` into a tree equal to `to` up to member order, with
   status 0, exactly when the three fit.
   */
  lemma GenerateThenApplyIff(from: Json, to: Json, doc: Json, cs: bool)
    requires Ready(from, cs) && Ready(to, cs) && IsCopy(doc, from, cs)
    ensures var r := ApplyAll(doc, AllWritten("", Changes(from, to, cs)), cs);
      r.status == 0 && Meaning(r.doc, cs) == Meaning(to, cs) <==> Fit(from, to, doc, cs)
  {
    RunIsApplyAll(doc, Changes(from, to, cs), cs);
    FitIff(from, to, doc, cs);
  }
}
