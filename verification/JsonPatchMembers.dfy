/** What a run of generated patches does to the members of one object: to the names that are equal up to letter case, in
    their order, and to the value of each member. */
module JsonPatchMembers {
  import opened CStrings
  import opened JsonTrees
  import opened JsonPointer
  import opened PointerDecode
  import opened Rfc6902
  import opened JsonPatchApply
  import opened JsonPatchRefines
  import opened JsonPatchGenerate
  import opened JsonPatchRuns
  import opened DecodedNames
  import opened NameRuns

  // ---------- one name ----------

  lemma HeldFirst(members: seq<Member<Json>>, k: string, cs: bool)
    requires members != []
    ensures ObjectItem(Object(members), k, cs) ==
            if Norm(cs, members[0].key) == Norm(cs, k) then Some(members[0].value) else ObjectItem(Object(members[1..]), k, cs)
  {
  }

  lemma {:induction false} HeldRemove(members: seq<Member<Json>>, i: nat, k: string, cs: bool)
    requires i < |members| && Norm(cs, members[i].key) != Norm(cs, k)
    ensures ObjectItem(Object(RemoveAt(members, i)), k, cs) == ObjectItem(Object(members), k, cs)
  {
    var rest := RemoveAt(members, i);
    HeldFirst(members, k, cs);
    if i == 0 {
      assert rest == members[1..];
    } else {
      HeldFirst(rest, k, cs);
      assert rest[1..] == RemoveAt(members[1..], i - 1) && members[1..][i - 1] == members[i];
      HeldRemove(members[1..], i - 1, k, cs);
    }
  }

  lemma {:induction false} HeldAppend(members: seq<Member<Json>>, m: Member<Json>, k: string, cs: bool)
    ensures ObjectItem(Object(members + [m]), k, cs) ==
            var held := ObjectItem(Object(members), k, cs);
            if held == None && Norm(cs, m.key) == Norm(cs, k) then Some(m.value) else held
  {
    HeldFirst(members + [m], k, cs);
    if members == [] {
      assert (members + [m])[1..] == [];
    } else {
      HeldFirst(members, k, cs);
      assert (members + [m])[1..] == members[1..] + [m];
      HeldAppend(members[1..], m, k, cs);
    }
  }

  lemma HeldSet(members: seq<Member<Json>>, i: nat, child: Json, k: string, cs: bool)
    requires i < |members|
    ensures ObjectItem(SetChild(Object(members), i, child), k, cs) ==
            if KeyIndex(members, k, cs) == i then Some(child) else ObjectItem(Object(members), k, cs)
  {
    SameKeys(members, SetChild(Object(members), i, child).members, k, cs);
  }

  /** The member that SetMember removes, if it is there, and what is left. */
  function Exactly(members: seq<Member<Json>>, name: string, cs: bool): seq<Member<Json>> {
    var i := KeyIndex(members, name, cs);
    if i < |members| then RemoveAt(members, i) else members
  }

  lemma HeldSetMember(members: seq<Member<Json>>, name: string, value: Json, k: string, cs: bool)
    requires DistinctUnder(members, cs)
    ensures DistinctUnder(SetMember(members, name, value, cs), cs)
    ensures ObjectItem(Object(SetMember(members, name, value, cs)), k, cs) ==
            if Norm(cs, k) == Norm(cs, name) then Some(value) else ObjectItem(Object(members), k, cs)
  {
    var rest, m, i := Exactly(members, name, cs), Member(name, value), KeyIndex(members, name, cs);
    NameGone(members, name, cs);
    HeldAppend(rest, m, k, cs);
    if i < |members| {
      DistinctRemove(members, i, cs);
      if Norm(cs, k) != Norm(cs, name) {
        HeldRemove(members, i, k, cs);
      }
    }
    if Norm(cs, k) == Norm(cs, name) {
      SameNameIndex(rest, k, name, cs);
    }
  }

  lemma {:induction false} SameNameIndex(members: seq<Member<Json>>, a: string, b: string, cs: bool)
    requires Norm(cs, a) == Norm(cs, b)
    ensures KeyIndex(members, a, cs) == KeyIndex(members, b, cs)
  {
    if members != [] {
      SameNameIndex(members[1..], a, b, cs);
    }
  }

  // ---------- rows of names ----------

  /** The names that are `k` without their letter case, in their order. */
  function Row(members: seq<Member<Json>>, k: string, cs: bool): seq<string> {
    if members == [] then []
    else (if Lower(members[0].key) == k then [Norm(cs, members[0].key)] else []) + Row(members[1..], k, cs)
  }

  lemma {:induction false} RowAppend(members: seq<Member<Json>>, m: Member<Json>, k: string, cs: bool)
    ensures Row(members + [m], k, cs) == Row(members, k, cs) + if Lower(m.key) == k then [Norm(cs, m.key)] else []
  {
    if members == [] {
      assert [] + [m] == [m] && [m][1..] == [];
    } else {
      assert (members + [m])[1..] == members[1..] + [m];
      RowAppend(members[1..], m, k, cs);
    }
  }

  /** Taking away the first that matches without regard to case. */
  lemma {:induction false} RowRemoveFirst(members: seq<Member<Json>>, name: string, k: string, cs: bool)
    ensures var i := KeyIndex(members, name, false);
      && (i < |members| <==> Row(members, Lower(name), cs) != [])
      && (i < |members| ==>
            Row(RemoveAt(members, i), k, cs) == if k == Lower(name) then Row(members, k, cs)[1..] else Row(members, k, cs))
  {
    if members != [] {
      var i := KeyIndex(members, name, false);
      if i == 0 {
        assert RemoveAt(members, 0) == members[1..];
      } else {
        RowRemoveFirst(members[1..], name, k, cs);
        if i < |members| {
          var rest := RemoveAt(members, i);
          assert rest[0] == members[0] && rest[1..] == RemoveAt(members[1..], i - 1);
        }
      }
    }
  }

  lemma LowerNorm(name: string, cs: bool)
    ensures Lower(Norm(cs, name)) == Lower(name)
  {
    assert forall i :: 0 <= i < |name| ==> LowerChar(LowerChar(name[i])) == LowerChar(name[i]);
  }

  lemma WithoutHead(s: seq<string>, x: string, y: string)
    ensures Without([y] + s, x) == if y == x then s else [y] + Without(s, x)
  {
    assert ([y] + s)[1..] == s;
  }

  /** Taking away the one that has the name. */
  lemma {:induction false} RowRemoveExactly(members: seq<Member<Json>>, name: string, k: string, cs: bool)
    ensures Row(Exactly(members, name, cs), k, cs) ==
            if k == Lower(name) then Without(Row(members, k, cs), Norm(cs, name)) else Row(members, k, cs)
  {
    if members != [] {
      var first, rest := members[0], members[1..];
      RowRemoveExactly(rest, name, k, cs);
      ExactlyHead(members, name, cs);
      assert members == [first] + rest;
      RowHead(first, rest, k, cs);
      RowHead(first, Exactly(rest, name, cs), k, cs);
      LowerNorm(name, cs);
      LowerNorm(first.key, cs);
      HeadWithout(Row(rest, k, cs), Row(Exactly(rest, name, cs), k, cs), first.key, name, k, cs);
    }
  }

  lemma HeadWithout(row: seq<string>, less: seq<string>, first: string, name: string, k: string, cs: bool)
    requires less == if k == Lower(name) then Without(row, Norm(cs, name)) else row
    requires Lower(Norm(cs, first)) == Lower(first) && Lower(Norm(cs, name)) == Lower(name)
    ensures var all := (if Lower(first) == k then [Norm(cs, first)] else []) + row;
      (if Norm(cs, first) == Norm(cs, name) then row else (if Lower(first) == k then [Norm(cs, first)] else []) + less) ==
        if k == Lower(name) then Without(all, Norm(cs, name)) else all
  {
    WithoutHead(row, Norm(cs, name), Norm(cs, first));
    assert [] + row == row;
    assert [] + less == less;
  }

  lemma ExactlyHead(members: seq<Member<Json>>, name: string, cs: bool)
    requires members != []
    ensures Exactly(members, name, cs) ==
            if Norm(cs, members[0].key) == Norm(cs, name) then members[1..] else [members[0]] + Exactly(members[1..], name, cs)
  {
    var i := KeyIndex(members[1..], name, cs);
    KeyIndexHead(members, name, cs);
    if Norm(cs, members[0].key) == Norm(cs, name) {
      assert RemoveAt(members, 0) == members[1..];
    } else if i < |members| - 1 {
      RemoveBehind(members, i);
    } else {
      assert members == [members[0]] + members[1..];
    }
  }

  lemma KeyIndexHead(members: seq<Member<Json>>, name: string, cs: bool)
    requires members != []
    ensures KeyIndex(members, name, cs) ==
            if Norm(cs, members[0].key) == Norm(cs, name) then 0 else 1 + KeyIndex(members[1..], name, cs)
  {
  }

  lemma RemoveBehind(members: seq<Member<Json>>, i: nat)
    requires i + 1 < |members|
    ensures RemoveAt(members, i + 1) == [members[0]] + RemoveAt(members[1..], i)
  {
  }

  lemma RowHead(m: Member<Json>, rest: seq<Member<Json>>, k: string, cs: bool)
    ensures Row([m] + rest, k, cs) == (if Lower(m.key) == k then [Norm(cs, m.key)] else []) + Row(rest, k, cs)
  {
    assert ([m] + rest)[1..] == rest;
  }

  lemma RowSetMember(members: seq<Member<Json>>, name: string, value: Json, k: string, cs: bool)
    ensures Row(SetMember(members, name, value, cs), k, cs) ==
            if k == Lower(name) then Without(Row(members, k, cs), Norm(cs, name)) + [Norm(cs, name)] else Row(members, k, cs)
  {
    RowRemoveExactly(members, name, k, cs);
    RowAppend(Exactly(members, name, cs), Member(name, value), k, cs);
  }

  lemma {:induction false} RowSame(a: seq<Member<Json>>, b: seq<Member<Json>>, k: string, cs: bool)
    requires |a| == |b| && forall i :: 0 <= i < |a| ==> a[i].key == b[i].key
    ensures Row(a, k, cs) == Row(b, k, cs)
  {
    if a != [] {
      assert a[0].key == b[0].key;
      RowSame(a[1..], b[1..], k, cs);
    }
  }

  lemma {:induction false} RowHas(members: seq<Member<Json>>, name: string, cs: bool)
    ensures Norm(cs, name) in Row(members, Lower(name), cs) <==> ObjectItem(Object(members), name, cs).Some?
  {
    if members != [] {
      HeldFirst(members, name, cs);
      RowHas(members[1..], name, cs);
      LowerNorm(name, cs);
      LowerNorm(members[0].key, cs);
    }
  }

  lemma {:induction false} RowOnly(members: seq<Member<Json>>, k: string, x: string, cs: bool)
    requires x in Row(members, k, cs)
    ensures Lower(x) == k && Norm(cs, x) == x
  {
    LowerNorm(members[0].key, cs);
    if Lower(members[0].key) == k && x == Norm(cs, members[0].key) {
      assert Norm(cs, Norm(cs, members[0].key)) == Norm(cs, members[0].key);
    } else {
      RowOnly(members[1..], k, x, cs);
    }
  }

  lemma {:induction false} RowDistinct(members: seq<Member<Json>>, k: string, cs: bool)
    requires DistinctUnder(members, cs)
    ensures Distinct(Row(members, k, cs))
  {
    if members != [] {
      var name, rest := members[0].key, members[1..];
      RowDistinct(rest, k, cs);
      RowHas(rest, name, cs);
      assert forall i :: 0 <= i < |rest| ==> rest[i] == members[i + 1] && Norm(cs, rest[i].key) != Norm(cs, name);
    }
  }

  // ---------- one change ----------

  lemma LevelDetach(members: seq<Member<Json>>, name: string, cs: bool)
    ensures Detaches(Object(members), [name], cs) ==
            var i := KeyIndex(members, Decoded(name), false);
            if i < |members| then Some(Object(RemoveAt(members, i))) else None
  {
    Unrendered(Object(members), [name], Null, cs);
    assert Parent([name]) == [] && Last([name]) == name;
  }

  lemma LevelAdd(members: seq<Member<Json>>, name: string, value: Json, cs: bool)
    ensures Adds(Object(members), [name], value, cs) == Some(Object(SetMember(members, Decoded(name), value, cs)))
  {
    Unrendered(Object(members), [name], value, cs);
    assert Parent([name]) == [] && Last([name]) == name;
  }

  function Inside(c: Change): Change
    requires c.path != []
  {
    match c
    case Added(path, value) => Added(path[1..], value)
    case Removed(path) => Removed(path[1..])
    case Replaced(path, value) => Replaced(path[1..], value)
  }

  lemma InsideBelow(c: Change)
    requires c.path != []
    ensures Below(c.path[0], Inside(c)) == c
  {
    assert [c.path[0]] + c.path[1..] == c.path;
  }

  /** What the object is left with by a change of one of its members. */
  function Level(members: seq<Member<Json>>, c: Change, cs: bool): Option<seq<Member<Json>>>
    requires |c.path| == 1
  {
    var n := Decoded(c.path[0]);
    var i := KeyIndex(members, n, false);
    match c
    case Added(_, v) => Some(SetMember(members, n, v, cs))
    case Removed(_) => if i < |members| then Some(RemoveAt(members, i)) else None
    case Replaced(_, v) => if i < |members| then Some(SetMember(RemoveAt(members, i), n, v, cs)) else None
  }

  lemma LevelStep(members: seq<Member<Json>>, c: Change, cs: bool)
    requires |c.path| == 1
    ensures Stepped(Object(members), c, cs) ==
            var r := Level(members, c, cs); if r == None then None else Some(Object(r.value))
  {
    var name := c.path[0];
    assert c.path == [name];
    SteppedIs(Object(members), c, cs);
    LevelDetach(members, name, cs);
    match c
    case Added(_, v) => LevelAdd(members, name, v, cs);
    case Removed(_) =>
    case Replaced(_, v) =>
      var i := KeyIndex(members, Decoded(name), false);
      if i < |members| {
        LevelAdd(RemoveAt(members, i), name, v, cs);
      }
  }

  /** A change below a member. */
  lemma DeepStep(j: Json, c: Change, cs: bool)
    requires j.Object? && |c.path| > 1
    ensures var i := KeyIndex(j.members, c.path[0], cs);
      Stepped(j, c, cs) ==
        if i < |j.members| then Lift(j, i, Stepped(j.members[i].value, Inside(c), cs)) else None
  {
    InsideBelow(c);
    StepBelow(j, c.path[0], Inside(c), cs);
  }

  function OpOf(c: Change, cs: bool): Op
    requires |c.path| == 1
  {
    var n := Norm(cs, c.path[0]);
    match c
    case Added(_, _) => Append(n)
    case Removed(_) => Pop(n)
    case Replaced(_, _) => Swap(n)
  }

  /** The changes of members whose names are `k` without their letter case. */
  function OpsOf(changes: seq<Change>, k: string, cs: bool): seq<Op> {
    if changes == [] then []
    else
      (if |changes[0].path| == 1 && Lower(changes[0].path[0]) == k then [OpOf(changes[0], cs)] else [])
      + OpsOf(changes[1..], k, cs)
  }

  predicate EndsRestored(changes: seq<Change>) {
    forall i :: 0 <= i < |changes| && |changes[i].path| == 1 ==> Restorable(changes[i].path[0])
  }

  /** What a change does to the row of `k`. */
  function RowStep(row: seq<string>, c: Change, k: string, cs: bool): Option<seq<string>> {
    if |c.path| == 1 && Lower(c.path[0]) == k then Done(row, OpOf(c, cs)) else Some(row)
  }

  lemma LevelRow(members: seq<Member<Json>>, c: Change, k: string, cs: bool)
    requires |c.path| == 1 && Restorable(c.path[0])
    ensures var r := Level(members, c, cs);
      && (r.Some? <==> RowStep(Row(members, Lower(c.path[0]), cs), c, Lower(c.path[0]), cs).Some?)
      && (r.Some? ==> RowStep(Row(members, k, cs), c, k, cs) == Some(Row(r.value, k, cs)))
  {
    var n := c.path[0];
    DecodeUndoesEncodeIff(n);
    var i := KeyIndex(members, n, false);
    RowRemoveFirst(members, n, k, cs);
    RowRemoveFirst(members, n, Lower(n), cs);
    match c
    case Added(_, v) => RowSetMember(members, n, v, k, cs);
    case Removed(_) =>
    case Replaced(_, v) =>
      if i < |members| {
        RowSetMember(RemoveAt(members, i), n, v, k, cs);
      }
  }

  lemma StepRow(j: Json, c: Change, r: Json, k: string, cs: bool)
    requires j.Object? && c.path != [] && (|c.path| == 1 ==> Restorable(c.path[0])) && Stepped(j, c, cs) == Some(r)
    ensures r.Object? && RowStep(Row(j.members, k, cs), c, k, cs) == Some(Row(r.members, k, cs))
  {
    if |c.path| == 1 {
      LevelStep(j.members, c, cs);
      LevelRow(j.members, c, k, cs);
    } else {
      DeepStep(j, c, cs);
      RowSame(j.members, r.members, k, cs);
    }
  }

  lemma RunCons(row: seq<string>, changes: seq<Change>, k: string, cs: bool)
    requires changes != []
    ensures Run(row, OpsOf(changes, k, cs)) ==
            var next := RowStep(row, changes[0], k, cs);
            if next == None then None else Run(next.value, OpsOf(changes[1..], k, cs))
  {
    var c, rest := changes[0], OpsOf(changes[1..], k, cs);
    if |c.path| == 1 && Lower(c.path[0]) == k {
      assert ([OpOf(c, cs)] + rest)[1..] == rest;
    } else {
      assert [] + rest == rest;
    }
  }

  /** The names in a row go the way the operations on them go. */
  lemma {:induction false} RunRow(j: Json, changes: seq<Change>, r: Json, k: string, cs: bool)
    requires j.Object? && AllInside(changes) && EndsRestored(changes) && RunOf(j, changes, cs) == Some(r)
    ensures r.Object? && Run(Row(j.members, k, cs), OpsOf(changes, k, cs)) == Some(Row(r.members, k, cs))
    decreases |changes|
  {
    if changes != [] {
      var j' := Stepped(j, changes[0], cs).value;
      RestTail(changes);
      StepRow(j, changes[0], j', k, cs);
      RunCons(Row(j.members, k, cs), changes, k, cs);
      RunRow(j', changes[1..], r, k, cs);
    }
  }

  lemma RestTail(changes: seq<Change>)
    requires AllInside(changes) && EndsRestored(changes) && changes != []
    ensures AllInside(changes[1..]) && EndsRestored(changes[1..])
    ensures changes[0].path != [] && (|changes[0].path| == 1 ==> Restorable(changes[0].path[0]))
  {
    forall i | 0 <= i < |changes| - 1
      ensures changes[1..][i].path != [] && (|changes[1..][i].path| == 1 ==> Restorable(changes[1..][i].path[0]))
    {
      assert changes[i + 1].path != [];
    }
  }

  // ---------- the value of one member ----------

  /** A change of another member leaves the value alone, unless it takes the member away. */
  lemma LevelKeeps(members: seq<Member<Json>>, c: Change, n: string, after: seq<Member<Json>>, cs: bool)
    requires DistinctUnder(members, cs) && |c.path| == 1 && Restorable(c.path[0]) && Level(members, c, cs) == Some(after)
    ensures DistinctUnder(after, cs)
    ensures Norm(cs, c.path[0]) != Norm(cs, n) && ObjectItem(Object(after), n, cs).Some? ==>
              ObjectItem(Object(after), n, cs) == ObjectItem(Object(members), n, cs)
    ensures !c.Removed? ==> ObjectItem(Object(after), c.path[0], cs) == Some(c.value)
  {
    var name := c.path[0];
    DecodeUndoesEncodeIff(name);
    match c
    case Added(_, v) =>
      HeldSetMember(members, name, v, n, cs);
      HeldSetMember(members, name, v, name, cs);
    case Removed(_) => RemovedKeeps(members, KeyIndex(members, name, false), n, cs);
    case Replaced(_, v) =>
      var i := KeyIndex(members, name, false);
      RemovedKeeps(members, i, n, cs);
      HeldSetMember(RemoveAt(members, i), name, v, n, cs);
      HeldSetMember(RemoveAt(members, i), name, v, name, cs);
  }

  lemma RemovedKeeps(members: seq<Member<Json>>, i: nat, n: string, cs: bool)
    requires DistinctUnder(members, cs) && i < |members|
    ensures DistinctUnder(RemoveAt(members, i), cs)
    ensures ObjectItem(Object(RemoveAt(members, i)), n, cs).Some? ==>
              ObjectItem(Object(RemoveAt(members, i)), n, cs) == ObjectItem(Object(members), n, cs)
  {
    var rest := RemoveAt(members, i);
    DistinctRemove(members, i, cs);
    if Norm(cs, members[i].key) != Norm(cs, n) {
      HeldRemove(members, i, n, cs);
    } else {
      assert forall k :: 0 <= k < |rest| ==> Norm(cs, rest[k].key) != Norm(cs, n);
    }
  }

  lemma SetDistinct(members: seq<Member<Json>>, i: nat, child: Json, cs: bool)
    requires DistinctUnder(members, cs) && i < |members|
    ensures DistinctUnder(SetChild(Object(members), i, child).members, cs)
  {
  }

  /** The changes below the member `n`, as its value sees them. */
  function Strip(changes: seq<Change>, n: string, cs: bool): seq<Change> {
    if changes == [] then []
    else
      (if |changes[0].path| > 1 && Norm(cs, changes[0].path[0]) == Norm(cs, n) then [Inside(changes[0])] else [])
      + Strip(changes[1..], n, cs)
  }

  /** No change is one of the member `n` as a whole. */
  predicate NotLevel(changes: seq<Change>, n: string, cs: bool) {
    forall i :: 0 <= i < |changes| && |changes[i].path| == 1 ==> Norm(cs, changes[i].path[0]) != Norm(cs, n)
  }

  /** One step, seen from the member `n`. */
  lemma StepHeld(j: Json, c: Change, n: string, j': Json, cs: bool)
    requires j.Object? && DistinctUnder(j.members, cs) && c.path != [] && Stepped(j, c, cs) == Some(j')
    requires |c.path| == 1 ==> Restorable(c.path[0]) && Norm(cs, c.path[0]) != Norm(cs, n)
    ensures j'.Object? && DistinctUnder(j'.members, cs)
    ensures ObjectItem(j', n, cs).Some? ==>
      var held := ObjectItem(j, n, cs);
      && held.Some?
      && ObjectItem(j', n, cs) ==
           if |c.path| > 1 && Norm(cs, c.path[0]) == Norm(cs, n) then Stepped(held.value, Inside(c), cs) else held
  {
    if |c.path| == 1 {
      LevelStep(j.members, c, cs);
      LevelKeeps(j.members, c, n, j'.members, cs);
    } else {
      DeepStep(j, c, cs);
      var i := KeyIndex(j.members, c.path[0], cs);
      var child := Stepped(j.members[i].value, Inside(c), cs).value;
      HeldSet(j.members, i, child, n, cs);
      SetDistinct(j.members, i, child, cs);
      if Norm(cs, c.path[0]) == Norm(cs, n) {
        SameNameIndex(j.members, c.path[0], n, cs);
      } else {
        assert KeyIndex(j.members, n, cs) != i;
      }
    }
  }

  lemma StripCons(changes: seq<Change>, n: string, cs: bool, v: Json)
    requires changes != []
    ensures var c, rest := changes[0], Strip(changes[1..], n, cs);
      RunOf(v, Strip(changes, n, cs), cs) ==
        if |c.path| > 1 && Norm(cs, c.path[0]) == Norm(cs, n) then
          (if Stepped(v, Inside(c), cs) == None then None else RunOf(Stepped(v, Inside(c), cs).value, rest, cs))
        else RunOf(v, rest, cs)
  {
    var c, rest := changes[0], Strip(changes[1..], n, cs);
    if |c.path| > 1 && Norm(cs, c.path[0]) == Norm(cs, n) {
      assert ([Inside(c)] + rest)[1..] == rest;
    } else {
      assert [] + rest == rest;
    }
  }

  /** A member that is there at the end, and was not changed as a whole, was there before, and the changes below it have made
      its value what it is. */
  lemma {:induction false} ChildRun(j: Json, changes: seq<Change>, n: string, r: Json, cs: bool) returns (v: Json)
    requires j.Object? && DistinctUnder(j.members, cs) && AllInside(changes) && EndsRestored(changes)
    requires RunOf(j, changes, cs) == Some(r) && NotLevel(changes, n, cs)
    requires r.Object? && ObjectItem(r, n, cs).Some?
    ensures ObjectItem(j, n, cs) == Some(v) && RunOf(v, Strip(changes, n, cs), cs) == ObjectItem(r, n, cs)
    decreases |changes|
  {
    if changes == [] {
      v := ObjectItem(j, n, cs).value;
    } else {
      var j' := Stepped(j, changes[0], cs).value;
      RestTail(changes);
      NotLevelTail(changes, n, cs);
      StepHeld(j, changes[0], n, j', cs);
      var v' := ChildRun(j', changes[1..], n, r, cs);
      v := ObjectItem(j, n, cs).value;
      StripCons(changes, n, cs, v);
    }
  }

  lemma NotLevelTail(changes: seq<Change>, n: string, cs: bool)
    requires NotLevel(changes, n, cs) && changes != []
    ensures NotLevel(changes[1..], n, cs)
    ensures |changes[0].path| == 1 ==> Norm(cs, changes[0].path[0]) != Norm(cs, n)
  {
    forall i | 0 <= i < |changes| - 1 && |changes[1..][i].path| == 1 ensures Norm(cs, changes[1..][i].path[0]) != Norm(cs, n) {
      assert changes[i + 1] == changes[1..][i];
    }
  }

  lemma {:induction false} RunDistinct(j: Json, changes: seq<Change>, r: Json, cs: bool)
    requires j.Object? && DistinctUnder(j.members, cs) && AllInside(changes) && EndsRestored(changes)
    requires RunOf(j, changes, cs) == Some(r)
    ensures r.Object? && DistinctUnder(r.members, cs)
    decreases |changes|
  {
    if changes != [] {
      var c, j' := changes[0], Stepped(j, changes[0], cs).value;
      RestTail(changes);
      if |c.path| == 1 {
        LevelStep(j.members, c, cs);
        LevelKeeps(j.members, c, c.path[0], j'.members, cs);
      } else {
        DeepStep(j, c, cs);
        var i := KeyIndex(j.members, c.path[0], cs);
        SetDistinct(j.members, i, Stepped(j.members[i].value, Inside(c), cs).value, cs);
      }
      RunDistinct(j', changes[1..], r, cs);
    }
  }

  /** A member that was added or replaced has the new value, if it is there at the end. */
  lemma ValueStays(j: Json, before: seq<Change>, c: Change, behind: seq<Change>, r: Json, cs: bool)
    requires j.Object? && DistinctUnder(j.members, cs) && |c.path| == 1 && !c.Removed?
    requires AllInside(before + [c] + behind) && EndsRestored(before + [c] + behind)
    requires RunOf(j, before + [c] + behind, cs) == Some(r)
    requires NotLevel(behind, c.path[0], cs) && Strip(behind, c.path[0], cs) == []
    ensures r.Object? && (ObjectItem(r, c.path[0], cs).Some? ==> ObjectItem(r, c.path[0], cs) == Some(c.value))
  {
    InsideParts(before + [c], behind);
    InsideParts(before, [c]);
    RunJoin(j, before + [c], behind, cs);
    RunJoin(j, before, [c], cs);
    var j1 := RunOf(j, before, cs).value;
    RunOne(j1, c, cs);
    var j2 := Stepped(j1, c, cs).value;
    RunDistinct(j, before, j1, cs);
    assert [c][0] == c;
    LevelStep(j1.members, c, cs);
    LevelKeeps(j1.members, c, c.path[0], j2.members, cs);
    RunDistinct(j2, behind, r, cs);
    if ObjectItem(r, c.path[0], cs).Some? {
      var v := ChildRun(j2, behind, c.path[0], r, cs);
    }
  }

  lemma InsideParts(a: seq<Change>, b: seq<Change>)
    requires AllInside(a + b) && EndsRestored(a + b)
    ensures AllInside(a) && EndsRestored(a) && AllInside(b) && EndsRestored(b)
  {
    forall i | 0 <= i < |a| ensures a[i].path != [] && (|a[i].path| == 1 ==> Restorable(a[i].path[0])) {
      assert (a + b)[i] == a[i];
    }
    forall i | 0 <= i < |b| ensures b[i].path != [] && (|b[i].path| == 1 ==> Restorable(b[i].path[0])) {
      assert (a + b)[|a| + i] == b[i];
    }
  }

  // ---------- when a run succeeds ----------

  /** The member `n` is not changed as a whole, it is there to the end, and the changes below it succeed. */
  predicate DeepFine(members: seq<Member<Json>>, changes: seq<Change>, n: string, cs: bool) {
    var held, end := ObjectItem(Object(members), n, cs), Run(Row(members, Lower(n), cs), OpsOf(changes, Lower(n), cs));
    && NotLevel(changes, n, cs)
    && held.Some? && RunOf(held.value, Strip(changes, n, cs), cs).Some?
    && end.Some? && Norm(cs, n) in end.value
  }

  ghost predicate RowsRun(members: seq<Member<Json>>, changes: seq<Change>, cs: bool) {
    forall k :: Run(Row(members, k, cs), OpsOf(changes, k, cs)).Some?
  }

  predicate AllDeepFine(members: seq<Member<Json>>, changes: seq<Change>, cs: bool) {
    forall i :: 0 <= i < |changes| && |changes[i].path| > 1 ==> DeepFine(members, changes, changes[i].path[0], cs)
  }

  lemma {:induction false} OpsNotLevel(changes: seq<Change>, n: string, k: string, op: Op, cs: bool)
    requires NotLevel(changes, n, cs) && op in OpsOf(changes, k, cs)
    ensures op.name != Norm(cs, n)
    decreases |changes|
  {
    NotLevelTail(changes, n, cs);
    if op in OpsOf(changes[1..], k, cs) {
      OpsNotLevel(changes[1..], n, k, op, cs);
    }
  }

  lemma DeepFineOn(j: Json, changes: seq<Change>, n: string, j': Json, cs: bool)
    requires j.Object? && DistinctUnder(j.members, cs) && AllInside(changes) && EndsRestored(changes) && changes != []
    requires Stepped(j, changes[0], cs) == Some(j') && DeepFine(j.members, changes, n, cs)
    ensures j'.Object? && DistinctUnder(j'.members, cs) && DeepFine(j'.members, changes[1..], n, cs)
  {
    var c, rest, k := changes[0], changes[1..], Lower(n);
    RestTail(changes);
    NotLevelTail(changes, n, cs);
    StepHeld(j, c, n, j', cs);
    StepRow(j, c, j', k, cs);
    RunCons(Row(j.members, k, cs), changes, k, cs);
    StripCons(changes, n, cs, ObjectItem(j, n, cs).value);
    RowDistinct(j'.members, k, cs);
    var row, end := Row(j'.members, k, cs), Run(Row(j'.members, k, cs), OpsOf(rest, k, cs)).value;
    RunNames(row, OpsOf(rest, k, cs), end, Norm(cs, n));
    if Norm(cs, n) !in row {
      var op := if Append(Norm(cs, n)) in OpsOf(rest, k, cs) then Append(Norm(cs, n)) else Swap(Norm(cs, n));
      OpsNotLevel(rest, n, k, op, cs);
    }
    RowHas(j'.members, n, cs);
  }

  lemma FirstSucceeds(j: Json, changes: seq<Change>, cs: bool) returns (j': Json)
    requires j.Object? && AllInside(changes) && EndsRestored(changes) && changes != []
    requires RowsRun(j.members, changes, cs) && AllDeepFine(j.members, changes, cs)
    ensures Stepped(j, changes[0], cs) == Some(j')
  {
    var c := changes[0];
    RestTail(changes);
    if |c.path| == 1 {
      var k := Lower(c.path[0]);
      assert Run(Row(j.members, k, cs), OpsOf(changes, k, cs)).Some?;
      RunCons(Row(j.members, k, cs), changes, k, cs);
      LevelStep(j.members, c, cs);
      LevelRow(j.members, c, k, cs);
    } else {
      assert DeepFine(j.members, changes, c.path[0], cs);
      StripCons(changes, c.path[0], cs, ObjectItem(j, c.path[0], cs).value);
      DeepStep(j, c, cs);
    }
    j' := Stepped(j, c, cs).value;
  }

  /** If every row goes through and so does every member that is changed below, the run succeeds. */
  lemma {:induction false} RunSucceeds(j: Json, changes: seq<Change>, cs: bool) returns (r: Json)
    requires j.Object? && DistinctUnder(j.members, cs) && AllInside(changes) && EndsRestored(changes)
    requires RowsRun(j.members, changes, cs) && AllDeepFine(j.members, changes, cs)
    ensures RunOf(j, changes, cs) == Some(r)
    decreases |changes|
  {
    if changes == [] {
      r := j;
    } else {
      var rest := changes[1..];
      var j' := FirstSucceeds(j, changes, cs);
      RestTail(changes);
      StepKeepsObject(j, changes[0], j', cs);
      forall k ensures Run(Row(j'.members, k, cs), OpsOf(rest, k, cs)).Some? {
        assert Run(Row(j.members, k, cs), OpsOf(changes, k, cs)).Some?;
        StepRow(j, changes[0], j', k, cs);
        RunCons(Row(j.members, k, cs), changes, k, cs);
      }
      forall i | 0 <= i < |rest| && |rest[i].path| > 1 ensures DeepFine(j'.members, rest, rest[i].path[0], cs) {
        assert changes[i + 1] == rest[i];
        DeepFineOn(j, changes, rest[i].path[0], j', cs);
      }
      r := RunSucceeds(j', rest, cs);
    }
  }

  lemma StepKeepsObject(j: Json, c: Change, j': Json, cs: bool)
    requires j.Object? && DistinctUnder(j.members, cs) && c.path != [] && (|c.path| == 1 ==> Restorable(c.path[0]))
    requires Stepped(j, c, cs) == Some(j')
    ensures j'.Object? && DistinctUnder(j'.members, cs)
  {
    assert [c][0] == c && [c][1..] == [];
    RunDistinct(j, [c], j', cs);
  }
}
