/** Runs of generated patches on a tree: what each one does, and what it does below a token. */
module JsonPatchRuns {
  import opened CStrings
  import opened JsonTrees
  import opened JsonPointer
  import opened JsonPointerLaws
  import opened MergeSort
  import opened Rfc6902
  import opened JsonPatchApply
  import opened JsonPatchRefines
  import opened JsonPatchGenerate
  import opened JsonPatchChanges
  import opened DecodedNames

  // ---------- changes of the whole ----------

  /** None of the changes is one of the whole document. */
  predicate AllInside(changes: seq<Change>) {
    forall i :: 0 <= i < |changes| ==> changes[i].path != []
  }

  /** create_patches replaces the whole value. */
  predicate Replaces(v: Json, w: Json) {
    !(v.Array? && w.Array?) && !(v.Object? && w.Object?) && v != w
  }

  /** Only a replaced value makes a change of the whole. */
  lemma ChangesInside(v: Json, w: Json, cs: bool)
    requires !Replaces(v, w)
    ensures AllInside(Changes(v, w, cs))
  {
    match (v, w)
    case (Array(x), Array(y)) => ElementsInside(x, y, 0, cs);
    case (Object(x), Object(y)) => MembersInside(Sort(x, cs), Sort(y, cs), cs);
    case (_, _) =>
  }

  lemma {:induction false} ElementsInside(x: seq<Json>, y: seq<Json>, i: nat, cs: bool)
    ensures AllInside(ElementChanges(x, y, i, cs))
    decreases |x| - i
  {
    if i < |x| && i < |y| {
      ElementsInside(x, y, i + 1, cs);
    } else {
      DroppedInside(i, |x| - i);
      AppendedInside(y, i);
    }
  }

  lemma {:induction false} DroppedInside(index: nat, count: int)
    ensures AllInside(Dropped(index, count))
  {
    if count > 0 {
      DroppedInside(index, count - 1);
    }
  }

  lemma {:induction false} AppendedInside(y: seq<Json>, i: nat)
    ensures AllInside(Appended(y, i))
    decreases |y| - i
  {
    if i < |y| {
      AppendedInside(y, i + 1);
    }
  }

  lemma {:induction false} MembersInside(s: seq<Member<Json>>, t: seq<Member<Json>>, cs: bool)
    ensures AllInside(MemberChanges(s, t, cs))
    decreases |s| + |t|
  {
    if s == [] && t == [] {
    } else if s == [] || (t != [] && Before(t[0], s[0], cs)) {
      MembersInside(s, t[1..], cs);
    } else if t == [] || Before(s[0], t[0], cs) {
      MembersInside(s[1..], t, cs);
    } else {
      MembersInside(s[1..], t[1..], cs);
    }
  }

  // ---------- one change, and a run ----------

  function Landed(r: Applied): Option<Json> {
    if r.status == 0 then Some(r.doc) else None
  }

  /** What one generated patch makes of a document, if it succeeds. */
  function Stepped(j: Json, c: Change, cs: bool): Option<Json> {
    Landed(ApplyPatch(j, Written("", c), cs))
  }

  function RunOf(j: Json, changes: seq<Change>, cs: bool): Option<Json>
    decreases |changes|
  {
    if changes == [] then Some(j)
    else
      var r := Stepped(j, changes[0], cs);
      if r == None then None else RunOf(r.value, changes[1..], cs)
  }

  lemma {:induction false} RunIsApplyAll(j: Json, changes: seq<Change>, cs: bool)
    ensures RunOf(j, changes, cs) == Landed(ApplyAll(j, AllWritten("", changes), cs))
    decreases |changes|
  {
    var patches := AllWritten("", changes);
    if changes != [] {
      assert patches[1..] == AllWritten("", changes[1..]);
      var r := Stepped(j, changes[0], cs);
      if r.Some? {
        RunIsApplyAll(r.value, changes[1..], cs);
      }
    }
  }

  lemma {:induction false} RunJoin(j: Json, a: seq<Change>, b: seq<Change>, cs: bool)
    ensures var m := RunOf(j, a, cs); RunOf(j, a + b, cs) == if m == None then None else RunOf(m.value, b, cs)
    decreases |a|
  {
    if a == [] {
      assert a + b == b;
    } else {
      assert (a + b)[1..] == a[1..] + b;
      var r := Stepped(j, a[0], cs);
      if r.Some? {
        RunJoin(r.value, a[1..], b, cs);
      }
    }
  }

  lemma RunOne(j: Json, c: Change, cs: bool)
    ensures RunOf(j, [c], cs) == Stepped(j, c, cs)
  {
    assert [c][1..] == [];
  }

  lemma RunNext(j: Json, changes: seq<Change>, next: Json, cs: bool)
    requires changes != [] && Stepped(j, changes[0], cs) == Some(next)
    ensures RunOf(j, changes, cs) == RunOf(next, changes[1..], cs)
  {
  }

  function Detaches(j: Json, path: seq<string>, cs: bool): Option<Json> {
    var d := DetachPath(j, Render(path), cs);
    if d == Nothing then None else Some(d.rest)
  }

  function Adds(j: Json, path: seq<string>, value: Json, cs: bool): Option<Json> {
    Landed(AddAt(j, Render(path), value, cs))
  }

  lemma BelowRoot(j: Json, patch: Json, path: string, opcode: Opcode, cs: bool)
    requires ObjectItem(patch, "path", cs) == Some(String(path)) && DecodePatchOperation(patch, cs) == opcode
    requires path != "" && opcode != INVALID && opcode != TEST
    ensures ApplyPatch(j, patch, cs) == ApplyBelowRoot(j, patch, path, opcode, cs)
  {
  }

  lemma BelowRootIs(j: Json, patch: Json, path: string, opcode: Opcode, value: Option<Json>, cs: bool)
    requires ObjectItem(patch, "value", cs) == value
    ensures opcode == ADD && value.Some? ==>
      ApplyBelowRoot(j, patch, path, opcode, cs) == AddAt(j, path, value.value, cs)
    ensures var d := DetachPath(j, path, cs);
      && (opcode == REMOVE ==>
            ApplyBelowRoot(j, patch, path, opcode, cs) == if d == Nothing then Applied(13, j) else Applied(0, d.rest))
      && (opcode == REPLACE && value.Some? ==>
            ApplyBelowRoot(j, patch, path, opcode, cs) ==
              if d == Nothing then Applied(13, j) else AddAt(d.rest, path, value.value, cs))
  {
  }

  lemma SteppedIs(j: Json, c: Change, cs: bool)
    requires c.path != []
    ensures Stepped(j, c, cs) ==
      match c
      case Added(path, value) => Adds(j, path, value, cs)
      case Removed(path) => Detaches(j, path, cs)
      case Replaced(path, value) => if Detaches(j, path, cs) == None then None else Adds(Detaches(j, path, cs).value, path, value, cs)
  {
    var patch, text, opcode := Written("", c), Render(c.path), OpcodeOf(ToOperation(c, cs));
    WrittenFields(c, cs);
    assert text != "";
    BelowRoot(j, patch, text, opcode, cs);
    BelowRootIs(j, patch, text, opcode, ObjectItem(patch, "value", cs), cs);
  }

  /** The code on the path text. */
  lemma Unrendered(j: Json, path: seq<string>, value: Json, cs: bool)
    requires path != []
    ensures var parent, child := Locate(j, Render(Parent(path)), cs), Decoded(Last(path));
      && DetachPath(j, Render(path), cs) == (if parent == None then Nothing else DetachChild(j, parent.value, child))
      && AddAt(j, Render(path), value, cs) ==
           (if parent == None then Applied(9, j) else AddChild(j, parent.value, child, value, cs))
  {
    SplitPath(path);
  }

  // ---------- below a token ----------

  /** The child that a token leads to. */
  function ChildOf(j: Json, token: string, cs: bool): (r: Option<nat>)
    ensures r.Some? ==> r.value < |Children(j)|
  {
    match j
    case Array(items) =>
      var i := IndexToken(Encode(token));
      if i.Some? && i.value < |items| then i else None
    case Object(members) =>
      var i := KeyIndex(members, token, cs);
      if i < |members| then Some(i) else None
    case _ => None
  }

  function Lift(j: Json, i: nat, child: Option<Json>): Option<Json>
    requires i < |Children(j)|
  {
    if child == None then None else Some(SetChild(j, i, child.value))
  }

  lemma LocateBelow(j: Json, token: string, path: seq<string>, cs: bool)
    ensures var i := ChildOf(j, token, cs);
      Locate(j, Render([token] + path), cs) ==
        if i == None then None else Under(i.value, Locate(Children(j)[i.value], Render(path), cs))
  {
    var rest := Render(path);
    var pointer := Encode(token) + rest;
    SegmentOf(Encode(token), rest);
    assert ([token] + path)[1..] == path && ("/" + pointer)[1..] == pointer;
    assert Render([token] + path) == "/" + pointer;
    if j.Object? {
      MatchIsKeyIndex(j.members, token, pointer, cs);
    }
    assert Step(j, pointer, cs) == ChildOf(j, token, cs);
  }

  lemma NodeUnder(j: Json, i: nat, pos: Position, node: Json)
    requires i < |Children(j)| && IsNode(Children(j)[i], pos)
    ensures IsNode(j, [i] + pos) && NodeAt(j, [i] + pos) == NodeAt(Children(j)[i], pos)
    ensures Put(j, [i] + pos, node) == SetChild(j, i, Put(Children(j)[i], pos, node))
  {
    assert ([i] + pos)[1..] == pos;
  }

  lemma SetChildTwice(j: Json, i: nat, a: Json, b: Json)
    requires i < |Children(j)|
    ensures |Children(SetChild(j, i, a))| == |Children(j)| && Children(SetChild(j, i, a))[i] == a
    ensures SetChild(SetChild(j, i, a), i, b) == SetChild(j, i, b)
    ensures SetChild(j, i, Children(j)[i]) == j
  {
  }

  lemma SetChildLeads(j: Json, i: nat, a: Json, token: string, cs: bool)
    requires i < |Children(j)|
    ensures ChildOf(SetChild(j, i, a), token, cs) == ChildOf(j, token, cs)
  {
    if j.Object? {
      SameKeys(j.members, SetChild(j, i, a).members, token, cs);
    }
  }

  lemma {:induction false} SameKeys(a: seq<Member<Json>>, b: seq<Member<Json>>, name: string, cs: bool)
    requires |a| == |b| && forall i :: 0 <= i < |a| ==> a[i].key == b[i].key
    ensures KeyIndex(a, name, cs) == KeyIndex(b, name, cs)
  {
    if a != [] {
      assert a[0].key == b[0].key;
      SameKeys(a[1..], b[1..], name, cs);
    }
  }

  lemma AddsBelow(j: Json, token: string, path: seq<string>, value: Json, cs: bool)
    requires path != []
    ensures var i := ChildOf(j, token, cs);
      Adds(j, [token] + path, value, cs) == if i == None then None else Lift(j, i.value, Adds(Children(j)[i.value], path, value, cs))
  {
    var p, i := [token] + path, ChildOf(j, token, cs);
    assert Parent(p) == [token] + Parent(path) && Last(p) == Last(path);
    LocateBelow(j, token, Parent(path), cs);
    Unrendered(j, p, value, cs);
    if i.Some? {
      var child := Children(j)[i.value];
      Unrendered(child, path, value, cs);
      var pos := Locate(child, Render(Parent(path)), cs);
      if pos.Some? {
        AddChildBelow(j, i.value, pos.value, Decoded(Last(path)), value, cs);
      }
    }
  }

  lemma AddChildBelow(j: Json, i: nat, pos: Position, name: string, value: Json, cs: bool)
    requires i < |Children(j)| && IsNode(Children(j)[i], pos)
    ensures IsNode(j, [i] + pos)
    ensures Landed(AddChild(j, [i] + pos, name, value, cs)) ==
            Lift(j, i, Landed(AddChild(Children(j)[i], pos, name, value, cs)))
  {
    NodeUnder(j, i, pos, j);
    match NodeAt(Children(j)[i], pos)
    case Array(items) =>
      var r := AddElement(items, name, value);
      if r.0 == 0 {
        NodeUnder(j, i, pos, Array(r.1));
      }
    case Object(members) => NodeUnder(j, i, pos, Object(SetMember(members, name, value, cs)));
    case _ =>
  }

  lemma DetachesBelow(j: Json, token: string, path: seq<string>, cs: bool)
    requires path != []
    ensures var i := ChildOf(j, token, cs);
      Detaches(j, [token] + path, cs) == if i == None then None else Lift(j, i.value, Detaches(Children(j)[i.value], path, cs))
  {
    var p, i := [token] + path, ChildOf(j, token, cs);
    assert Parent(p) == [token] + Parent(path) && Last(p) == Last(path);
    LocateBelow(j, token, Parent(path), cs);
    Unrendered(j, p, j, cs);
    if i.Some? {
      var child := Children(j)[i.value];
      Unrendered(child, path, j, cs);
      var pos := Locate(child, Render(Parent(path)), cs);
      if pos.Some? {
        DetachChildBelow(j, i.value, pos.value, Decoded(Last(path)));
      }
    }
  }

  lemma DetachChildBelow(j: Json, i: nat, pos: Position, name: string)
    requires i < |Children(j)| && IsNode(Children(j)[i], pos)
    ensures IsNode(j, [i] + pos)
    ensures var d, e := DetachChild(j, [i] + pos, name), DetachChild(Children(j)[i], pos, name);
      && (d == Nothing <==> e == Nothing)
      && (d != Nothing ==> d.rest == SetChild(j, i, e.rest))
  {
    NodeUnder(j, i, pos, j);
    match NodeAt(Children(j)[i], pos)
    case Array(items) =>
      var k := IndexToken(Segment(name));
      if k.Some? && k.value < |items| {
        NodeUnder(j, i, pos, Array(RemoveAt(items, k.value)));
      }
    case Object(members) =>
      var k := KeyIndex(members, name, false);
      if k < |members| {
        NodeUnder(j, i, pos, Object(RemoveAt(members, k)));
      }
    case _ =>
  }

  /** A change below a token changes the child it leads to, and nothing else. */
  lemma StepBelow(j: Json, token: string, c: Change, cs: bool)
    requires c.path != []
    ensures var i := ChildOf(j, token, cs);
      Stepped(j, Below(token, c), cs) == if i == None then None else Lift(j, i.value, Stepped(Children(j)[i.value], c, cs))
  {
    var i := ChildOf(j, token, cs);
    SteppedIs(j, Below(token, c), cs);
    if i.Some? {
      SteppedIs(Children(j)[i.value], c, cs);
    }
    match c
    case Added(path, value) => AddsBelow(j, token, path, value, cs);
    case Removed(path) => DetachesBelow(j, token, path, cs);
    case Replaced(path, value) =>
      DetachesBelow(j, token, path, cs);
      if i.Some? {
        var rest := Detaches(Children(j)[i.value], path, cs);
        if rest.Some? {
          var j' := SetChild(j, i.value, rest.value);
          SetChildLeads(j, i.value, rest.value, token, cs);
          AddsBelow(j', token, path, value, cs);
          SetChildTwice(j, i.value, rest.value, rest.value);
          var after := Adds(rest.value, path, value, cs);
          if after.Some? {
            SetChildTwice(j, i.value, rest.value, after.value);
          }
        }
      }
  }

  lemma {:induction false} RunBelow(j: Json, token: string, i: nat, changes: seq<Change>, cs: bool)
    requires ChildOf(j, token, cs) == Some(i) && AllInside(changes)
    ensures RunOf(j, AllBelow(token, changes), cs) == Lift(j, i, RunOf(Children(j)[i], changes, cs))
    decreases |changes|
  {
    var below := AllBelow(token, changes);
    SetChildTwice(j, i, j, j);
    if changes != [] {
      StepBelow(j, token, changes[0], cs);
      assert below[1..] == AllBelow(token, changes[1..]);
      var r := Stepped(Children(j)[i], changes[0], cs);
      if r.Some? {
        var j' := SetChild(j, i, r.value);
        SetChildTwice(j, i, r.value, r.value);
        SetChildLeads(j, i, r.value, token, cs);
        RunBelow(j', token, i, changes[1..], cs);
        var end := RunOf(r.value, changes[1..], cs);
        if end.Some? {
          SetChildTwice(j, i, r.value, end.value);
        }
      }
    }
  }
}
