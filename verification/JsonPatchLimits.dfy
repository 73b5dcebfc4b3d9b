/** Where apply_patch departs from RFC 6902, and exactly when it does not. */
module JsonPatchLimits {
  import opened CStrings
  import opened JsonTrees
  import opened JsonPointer
  import opened JsonPointerLaws
  import opened PointerDecode
  import opened Rfc6902
  import opened JsonPatchApply
  import opened JsonPatchRefines
  import opened MergeSort
  import opened JsonPatchGenerate
  import opened JsonPatchChanges

  // ---------- a decoded name never differs from the name in letter case alone ----------

  predicate TildeOrZero(c: char) {
    c == '~' || c == '0'
  }

  /** While decoded and name agree, what the encoder pushed to the right of its place are '~' and '0' only. */
  lemma {:induction false} Overhang(name: string, r: string, i: nat, cs: bool)
    requires '/' !in name && |r| == |name| && i <= |name|
    requires forall k :: 0 <= k < |name| ==> r[k] == if name[k] == '~' then '~' else Encode(name)[k]
    requires Norm(cs, r) == Norm(cs, name)
    ensures r[..i] == name[..i]
    ensures var e := Encode(name[..i]);
      e == name[..i] || (|e| > i && forall k :: i <= k < |e| ==> TildeOrZero(e[k]))
    decreases i
  {
    if i > 0 {
      var c, before := name[i - 1], Encode(name[..i - 1]);
      Overhang(name, r, i - 1, cs);
      EncodedStep(name, i - 1);
      assert Encode(name)[i - 1] == (before + EncodeChar(c))[i - 1] by {
        EncodedPrefix(name, i);
      }
      assert NormChar(cs, r[i - 1]) == NormChar(cs, c) by {
        NormAt(cs, r, i - 1);
        NormAt(cs, name, i - 1);
      }
      assert c in name;
      OverhangStep(before, c, r[i - 1], i - 1, cs);
      SnocPrefix(name, i - 1);
      SnocPrefix(r, i - 1);
    }
  }

  lemma SnocPrefix(s: string, i: nat)
    requires i < |s|
    ensures s[..i + 1] == s[..i] + [s[i]]
  {
  }

  lemma OverhangStep(before: string, c: char, d: char, i: nat, cs: bool)
    requires c != '/' && NormChar(cs, d) == NormChar(cs, c) && |before| >= i
    requires d == if c == '~' then '~' else (before + EncodeChar(c))[i]
    requires |before| == i || forall k :: i <= k < |before| ==> TildeOrZero(before[k])
    ensures d == c
    ensures var e := before + EncodeChar(c);
      (|before| == i && c != '~' && e == before + [c]) || (|e| > i + 1 && forall k :: i + 1 <= k < |e| ==> TildeOrZero(e[k]))
  {
  }

  lemma SlashDiffers(name: string, r: string, cs: bool)
    requires '/' in name && |r| == |name| && r == Buffer(name, |name|)[..|name|]
    ensures Norm(cs, r) != Norm(cs, name)
  {
    var i := FirstSlash(name);
    assert r[i] == Encode(name)[i] && Encode(name)[i] in Encode(name);
    NormAt(cs, r, i);
    NormAt(cs, name, i);
  }

  lemma DecodedUpToCase(name: string, cs: bool)
    ensures Norm(cs, DecodeInPlace(Encode(name))) == Norm(cs, name) <==> Restorable(name)
  {
    DecodeUndoesEncodeIff(name);
    DecodeEncoded(name, 0);
    assert Buffer(name, 0) == Encode(name);
    var r := DecodeInPlace(Encode(name));
    assert r == Buffer(name, |name|)[..|name|];
    if '/' in name {
      SlashDiffers(name, r, cs);
    } else if Norm(cs, r) == Norm(cs, name) {
      assert forall k :: 0 <= k < |name| ==> name[k] in name;
      Overhang(name, r, |name|, cs);
      assert r[..|name|] == r && name[..|name|] == name;
    }
  }

  // ---------- adding and removing one member ----------

  lemma AddChildOf(doc: Json, path: seq<string>, value: Json, pos: Position, cs: bool)
    requires path != [] && Locate(doc, Render(Parent(path)), cs) == Some(pos)
    ensures AddAt(doc, Render(path), value, cs) == AddChild(doc, pos, DecodeInPlace(Encode(Last(path))), value, cs)
  {
    SplitPath(path);
  }

  /** The code on a path whose parent is an object, without the path text. */
  lemma AddAtObject(doc: Json, path: seq<string>, value: Json, pos: Position, cs: bool)
    requires path != [] && Locate(doc, Render(Parent(path)), cs) == Some(pos) && NodeAt(doc, pos).Object?
    ensures AddAt(doc, Render(path), value, cs) ==
            Applied(0, Put(doc, pos, Object(SetMember(NodeAt(doc, pos).members, DecodeInPlace(Encode(Last(path))), value, cs))))
  {
    AddChildOf(doc, path, value, pos, cs);
    ObjectChild(doc, pos, DecodeInPlace(Encode(Last(path))), value, cs);
  }

  lemma ObjectChild(doc: Json, pos: Position, child: string, value: Json, cs: bool)
    requires IsNode(doc, pos) && NodeAt(doc, pos).Object?
    ensures AddChild(doc, pos, child, value, cs) ==
            Applied(0, Put(doc, pos, Object(SetMember(NodeAt(doc, pos).members, child, value, cs))))
  {
  }

  lemma ParentObject(doc: Json, path: seq<string>, cs: bool) returns (pos: Position)
    requires SanePath(Meaning(doc, cs), path, cs)
    requires DocGet(Meaning(doc, cs), path, cs).Some? && DocGet(Meaning(doc, cs), path, cs).value.Obj?
    ensures Locate(doc, Render(path), cs) == Some(pos) && NodeAt(doc, pos).Object?
    ensures DocGet(Meaning(doc, cs), path, cs) == Some(Meaning(NodeAt(doc, pos), cs))
  {
    LocateIsDocGet(doc, path, cs);
    pos := Locate(doc, Render(path), cs).value;
  }

  /** Adding a member that was not there, at any path: the code adds what the RFC adds exactly when the name survives
      being decoded in place. */
  lemma AddRightIffRestorable(doc: Json, path: seq<string>, value: Json, cs: bool)
    requires path != [] && DistinctSiblings(doc, cs) && DistinctSiblings(value, cs) && SanePath(Meaning(doc, cs), Parent(path), cs)
    requires var container := DocGet(Meaning(doc, cs), Parent(path), cs);
      container.Some? && container.value.Obj? && Norm(cs, Last(path)) !in container.value.fields
    ensures var r := AddAt(doc, Render(path), value, cs);
      r.status == 0 && (DocAdd(Meaning(doc, cs), path, Meaning(value, cs), cs) == Some(Meaning(r.doc, cs)) <==> Restorable(Last(path)))
  {
    var d, v, name := Meaning(doc, cs), Meaning(value, cs), DecodeInPlace(Encode(Last(path)));
    var pos := ParentObject(doc, Parent(path), cs);
    AddAtObject(doc, path, value, pos, cs);
    PutMember(doc, Parent(path), pos, name, value, cs);
    DecodedUpToCase(Last(path), cs);
    PutDiffers(d, Parent(path), name, Last(path), v, cs);
  }

  /** Setting different new members gives different documents. */
  lemma PutDiffers(d: Doc, path: seq<string>, a: string, b: string, v: Doc, cs: bool)
    requires DocGet(d, path, cs).Some? && DocGet(d, path, cs).value.Obj? && Norm(cs, b) !in DocGet(d, path, cs).value.fields
    ensures var fields := DocGet(d, path, cs).value.fields;
      DocPut(d, path, Obj(fields[Norm(cs, a) := v]), cs) == DocPut(d, path, Obj(fields[Norm(cs, b) := v]), cs) <==>
        Norm(cs, a) == Norm(cs, b)
  {
    var fields := DocGet(d, path, cs).value.fields;
    DocPutTwice(d, path, Obj(fields[Norm(cs, a) := v]), d, cs);
    DocPutTwice(d, path, Obj(fields[Norm(cs, b) := v]), d, cs);
    if fields[Norm(cs, a) := v] == fields[Norm(cs, b) := v] {
      assert Norm(cs, b) in fields[Norm(cs, a) := v];
    }
  }

  lemma PutMember(doc: Json, path: seq<string>, pos: Position, name: string, value: Json, cs: bool)
    requires DistinctSiblings(doc, cs) && DistinctSiblings(value, cs) && SanePath(Meaning(doc, cs), path, cs)
    requires Locate(doc, Render(path), cs) == Some(pos) && NodeAt(doc, pos).Object?
    requires DocGet(Meaning(doc, cs), path, cs) == Some(Meaning(NodeAt(doc, pos), cs))
    ensures Meaning(Put(doc, pos, Object(SetMember(NodeAt(doc, pos).members, name, value, cs))), cs) ==
            DocPut(Meaning(doc, cs), path, Obj(Meaning(NodeAt(doc, pos), cs).fields[Norm(cs, name) := Meaning(value, cs)]), cs)
  {
    var members := NodeAt(doc, pos).members;
    DistinctAt(doc, pos, cs);
    assert DistinctMembers(members, cs);
    SetMemberFields(members, name, value, cs);
    SetMemberDistinct(members, name, value, cs);
    PutMeans(doc, path, pos, Object(SetMember(members, name, value, cs)), cs);
  }

  lemma AddPatch(doc: Json, path: seq<string>, value: Json, cs: bool)
    requires path != [] && DistinctSiblings(value, cs)
    ensures ApplyPatch(doc, Written("", Added(path, value)), cs) == AddAt(doc, Render(path), value, cs)
  {
    var c := Added(path, value);
    WrittenFields(c, cs);
    WrittenSays(c, cs);
    Dispatch(doc, Written("", c), ToOperation(c, cs), cs);
  }

  lemma AddsOne(m: Member<Json>, cs: bool)
    ensures Changes(Object([]), Object([m]), cs) == [Added([m.key], m.value)]
  {
    var t := [m];
    assert Sort(t, cs) == t && t[1..] == [];
    assert MemberChanges([], [], cs) == [];
    assert MemberChanges([], t, cs) == [Added([m.key], m.value)] + [];
  }

  /** The patch generated from {} to an object of one member adds it under the name as it is decoded. */
  lemma AddedUnderDecoded(name: string, value: Json, cs: bool)
    requires DistinctSiblings(value, cs)
    ensures ApplyAll(Object([]), AllWritten("", Changes(Object([]), Object([Member(name, value)]), cs)), cs) ==
            Applied(0, Object([Member(DecodeInPlace(Encode(name)), value)]))
  {
    var doc, path := Object([]), [name];
    assert Parent(path) == [] && Last(path) == name;
    AddPatch(doc, path, value, cs);
    AddAtObject(doc, path, value, [], cs);
    assert SetMember([], DecodeInPlace(Encode(name)), value, cs) == [Member(DecodeInPlace(Encode(name)), value)];
    ApplyOne(doc, Added(path, value), cs);
    AddsOne(Member(name, value), cs);
  }

  lemma TildeAndSlashDecode()
    ensures DecodeInPlace(Encode("a~b")) == "a~0" && DecodeInPlace(Encode("a/b")) == "a~/"
  {
    EncodeThree('a', '~', 'b');
    EncodeThree('a', '/', 'b');
    assert "a" + "~0" + "b" == "a~0b" && "a" + "~1" + "b" == "a~1b";
    assert "a~0b"[1 := '~'] == "a~0b" && "a~1b"[2 := '/'] == "a~/b";
    assert DecodeFrom("a~0b", 2, 3) == DecodeFrom("a~0b", 3, 4) == "a~0b"[..3];
    assert DecodeFrom("a~/b", 2, 3) == DecodeFrom("a~/b", 3, 4) == "a~/b"[..3];
  }

  lemma EncodeThree(a: char, b: char, c: char)
    ensures Encode([a, b, c]) == EncodeChar(a) + EncodeChar(b) + EncodeChar(c)
  {
    var s := [a, b, c];
    assert s[1..] == [b, c] && s[1..][1..] == [c] && s[1..][1..][1..] == [];
    assert Encode([c]) == EncodeChar(c) + "" == EncodeChar(c);
  }

  /** A '~' or '/' in front of another character is lost: generated patches that add "a~b" and "a/b" to {} add "a~0" and
      "a~/", and report success. */
  lemma TildeAndSlashAreLost(value: Json, cs: bool)
    requires DistinctSiblings(value, cs)
    ensures !Restorable("a~b") && !Restorable("a/b")
    ensures ApplyAll(Object([]), AllWritten("", Changes(Object([]), Object([Member("a~b", value)]), cs)), cs) ==
            Applied(0, Object([Member("a~0", value)]))
    ensures ApplyAll(Object([]), AllWritten("", Changes(Object([]), Object([Member("a/b", value)]), cs)), cs) ==
            Applied(0, Object([Member("a~/", value)]))
  {
    TildeAndSlashDecode();
    DecodeUndoesEncodeIff("a~b");
    DecodeUndoesEncodeIff("a/b");
    assert "a~b"[2] != "a~0"[2] && "a/b"[1] != "a~/"[1];
    AddedUnderDecoded("a~b", value, cs);
    AddedUnderDecoded("a/b", value, cs);
  }

  // ---------- detaching without regard to case ----------

  /** A member that is not the one asked for goes instead. */
  lemma MistakenDetach(doc: Json, path: seq<string>, cs: bool) returns (members: seq<Member<Json>>, k: string, rest: Json)
    requires DistinctSiblings(doc, cs) && path != [] && Regular(Meaning(doc, cs), path, cs) && !Unmistaken(doc, path, cs)
    ensures DocGet(Meaning(doc, cs), Parent(path), cs) == Some(Obj(Fields(members, cs)))
    ensures k in Fields(members, cs) && k != Norm(cs, Last(path))
    ensures DetachPath(doc, Render(path), cs).Detached? && DetachPath(doc, Render(path), cs).rest == rest
    ensures Meaning(rest, cs) == DocPut(Meaning(doc, cs), Parent(path), Obj(Fields(members, cs) - {k}), cs)
    ensures DistinctSiblings(rest, cs)
  {
    UnrenderPath(doc, path, doc, cs);
    LocateIsDocGet(doc, Parent(path), cs);
    var pos := Locate(doc, Render(Parent(path)), cs).value;
    members := NodeAt(doc, pos).members;
    DistinctAt(doc, pos, cs);
    assert DistinctMembers(members, cs);
    var i := KeyIndex(members, Last(path), false);
    k := Norm(cs, members[i].key);
    FieldsAt(members, i, cs);
    FieldsRemove(members, i, cs);
    DistinctRemove(members, i, cs);
    var after := RemoveAt(members, i);
    assert DistinctMembers(after, cs);
    rest := Put(doc, pos, Object(after));
    PutMeans(doc, Parent(path), pos, Object(after), cs);
    PutIsDocPut(doc, Parent(path), pos, Object(after), cs);
  }

  lemma MistakenRemove(doc: Json, path: seq<string>, cs: bool)
    requires DistinctSiblings(doc, cs) && path != [] && Regular(Meaning(doc, cs), path, cs) && !Unmistaken(doc, path, cs)
    ensures var gone := DetachPath(doc, Render(path), cs);
      gone.Detached? && DocRemove(Meaning(doc, cs), path, cs) != Some(Meaning(gone.rest, cs))
  {
    var members, k, rest := MistakenDetach(doc, path, cs);
    var d, f, n := Meaning(doc, cs), Fields(members, cs), Norm(cs, Last(path));
    DocPutTwice(d, Parent(path), Obj(f - {k}), d, cs);
    DocPutTwice(d, Parent(path), Obj(f - {n}), d, cs);
    assert k in f - {n} && k !in f - {k};
  }

  lemma MistakenReplace(doc: Json, path: seq<string>, value: Json, cs: bool)
    requires DistinctSiblings(doc, cs) && path != [] && Regular(Meaning(doc, cs), path, cs) && !Unmistaken(doc, path, cs)
    requires DistinctSiblings(value, cs)
    ensures var gone := DetachPath(doc, Render(path), cs);
      && gone.Detached?
      && var r := AddAt(gone.rest, Render(path), value, cs);
         r.status == 0 && Perform(Meaning(doc, cs), Replace(path, Meaning(value, cs)), cs) != Some(Meaning(r.doc, cs))
  {
    var members, k, rest := MistakenDetach(doc, path, cs);
    var d, f, n, v := Meaning(doc, cs), Fields(members, cs), Norm(cs, Last(path)), Meaning(value, cs);
    var less, more := (f - {k})[n := v], f[n := v];
    DocPutTwice(d, Parent(path), Obj(f - {k}), Obj(less), cs);
    AddIsDocAdd(rest, path, value, cs);
    DocPutTwice(d, Parent(path), Obj(less), d, cs);
    DocPutTwice(d, Parent(path), Obj(more), d, cs);
    assert k in more && k !in less;
    DocGetSplit(d, path, cs);
    if DocGet(d, path, cs).Some? {
      DocPutSplit(d, path, v, cs);
    }
  }

  /**
   "remove" and "replace" at any path do what RFC 6902 says exactly when the first member that detach_path finds, without
   regard to case, has the name that was asked for.
   */
  lemma CaseBlindDetachIff(doc: Json, patch: Json, op: Operation, cs: bool)
    requires (op.Remove? || op.Replace?) && op.path != []
    requires DistinctSiblings(doc, cs) && Says(patch, op, cs) && Regular(Meaning(doc, cs), op.path, cs)
    ensures Refines(ApplyPatch(doc, patch, cs), Perform(Meaning(doc, cs), op, cs), cs) <==> Unmistaken(doc, op.path, cs)
  {
    if Unmistaken(doc, op.path, cs) {
      ApplyPatchRefinesRfc6902(doc, patch, op, cs);
    } else {
      Dispatch(doc, patch, op, cs);
      var value := ObjectItem(patch, "value", cs);
      DetachedThen(doc, patch, Render(op.path), value, cs);
      if op.Remove? {
        MistakenRemove(doc, op.path, cs);
        WrongResult(Applied(0, DetachPath(doc, Render(op.path), cs).rest), DocRemove(Meaning(doc, cs), op.path, cs), cs);
      } else {
        MistakenReplace(doc, op.path, value.value, cs);
        WrongResult(AddAt(DetachPath(doc, Render(op.path), cs).rest, Render(op.path), value.value, cs),
                    Perform(Meaning(doc, cs), op, cs), cs);
      }
    }
  }

  lemma WrongResult(r: Applied, m: Option<Doc>, cs: bool)
    requires r.status == 0 && m != Some(Meaning(r.doc, cs))
    ensures !Refines(r, m, cs)
  {
  }

  lemma DetachedThen(doc: Json, patch: Json, path: string, value: Option<Json>, cs: bool)
    requires value == ObjectItem(patch, "value", cs)
    ensures var gone := DetachPath(doc, path, cs);
      gone.Detached? ==>
        && ApplyBelowRoot(doc, patch, path, REMOVE, cs) == Applied(0, gone.rest)
        && (value.Some? ==> ApplyBelowRoot(doc, patch, path, REPLACE, cs) == AddAt(gone.rest, path, value.value, cs))
  {
  }

  const Upper := Member("A", Number(1))
  const LowerA := Member("a", Number(2))

  lemma DetachesUpper()
    ensures DetachChild(Object([Upper, LowerA]), [], "a") == Detached(Number(1), Object([LowerA]))
  {
    var members := [Upper, LowerA];
    assert LowerChar('A') == 'a' && LowerChar('a') == 'a';
    assert Lower("A") == Lower("a");
    assert KeyIndex(members, "a", false) == 0;
    assert RemoveAt(members, 0) == [LowerA];
  }

  lemma RemovesLower()
    ensures Changes(Object([Upper, LowerA]), Object([Upper]), true) == [Removed(["a"])]
  {
    var s, t := [Upper, LowerA], [Upper];
    assert Before(Upper, LowerA, true) && !Before(Upper, Upper, true);
    assert Ascending(s, true) && Sort(s, true) == s && Sort(t, true) == t;
    assert s[1..] == [LowerA] && t[1..] == [] && s[1..][1..] == [];
    assert MemberChanges([], [], true) == [];
    assert MemberChanges([LowerA], [], true) == [Removed(["a"])] + [];
    assert Changes(Number(1), Number(1), true) == [] && AllBelow("A", []) == [];
    assert MemberChanges(s, t, true) == [] + MemberChanges([LowerA], [], true);
  }

  lemma RestorableA()
    ensures Restorable("a")
  {
    assert "a"[1..] == "";
    EncodePlain("a");
  }

  lemma RemovePatch(doc: Json, path: seq<string>, pos: Position, cs: bool)
    requires path != [] && Restorable(Last(path)) && Locate(doc, Render(Parent(path)), cs) == Some(pos)
    ensures ApplyPatch(doc, Written("", Removed(path)), cs) ==
            var gone := DetachChild(doc, pos, Last(path));
            if gone == Nothing then Applied(13, doc) else Applied(0, gone.rest)
  {
    WrittenSays(Removed(path), cs);
    Dispatch(doc, Written("", Removed(path)), Remove(path), cs);
    UnrenderPath(doc, path, doc, cs);
  }

  lemma ApplyOne(doc: Json, c: Change, cs: bool)
    requires ApplyPatch(doc, Written("", c), cs).status == 0
    ensures ApplyAll(doc, AllWritten("", [c]), cs) == ApplyPatch(doc, Written("", c), cs)
  {
    var patches := AllWritten("", [c]);
    assert patches == [Written("", c)] && patches[1..] == [];
  }

  /** So a generated patch can take the wrong member away: the one from {"A":1,"a":2} to {"A":1} makes {"a":2} of a copy
      of the first, and reports success. */
  lemma CaseBlindDetachGoesWrong()
    ensures var doc, to := Object([Upper, LowerA]), Object([Upper]);
      ApplyAll(doc, AllWritten("", Changes(doc, to, true)), true) == Applied(0, Object([LowerA]))
  {
    var doc, path := Object([Upper, LowerA]), ["a"];
    RestorableA();
    assert Parent(path) == [] && Last(path) == "a";
    RemovePatch(doc, path, [], true);
    DetachesUpper();
    ApplyOne(doc, Removed(path), true);
    RemovesLower();
  }

  lemma NoLowerA()
    ensures "a" !in Fields([Upper], true)
  {
    FieldsLookup([Upper], "a", true);
    assert "A"[0] != "a"[0];
    assert KeyIndex([Upper], "a", true) == 1;
  }

  lemma DetachesOnly()
    ensures DetachChild(Object([Upper]), [], "a") == Detached(Number(1), Object([]))
  {
    assert LowerChar('A') == 'a' && LowerChar('a') == 'a';
    assert Lower("A") == Lower("a");
    assert KeyIndex([Upper], "a", false) == 0 && RemoveAt([Upper], 0) == [];
  }

  lemma RemovesNothing(fields: map<string, Doc>, name: string)
    requires name !in fields
    ensures Perform(Obj(fields), Remove([name]), true) == None
  {
    assert Parent([name]) == [] && Last([name]) == name;
  }

  /** And a patch can take away what it does not name: removing "/a" from {"A":1} leaves {} and reports success, where
      RFC 6902 has an error. */
  lemma AbsentNameIsRemoved()
    ensures var doc := Object([Upper]);
      && ApplyPatch(doc, Written("", Removed(["a"])), true) == Applied(0, Object([]))
      && Perform(Meaning(doc, true), ToOperation(Removed(["a"]), true), true) == None
  {
    var path := ["a"];
    RestorableA();
    assert Parent(path) == [] && Last(path) == "a";
    RemovePatch(Object([Upper]), path, [], true);
    DetachesOnly();
    NoLowerA();
    RemovesNothing(Fields([Upper], true), "a");
  }
}
