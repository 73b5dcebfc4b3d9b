/** apply_patch refines section 4 of RFC 6902, on the paths the code and the RFC read alike. */
module JsonPatchRefines {
  import opened CStrings
  import opened JsonTrees
  import opened JsonPointer
  import opened JsonPointerLaws
  import opened PointerDecode
  import opened JsonCompare
  import opened JsonPatchApply
  import opened Rfc6902

  // ---------- paths ----------

  lemma {:induction false} LastSlashAt(a: string, b: string)
    requires '/' !in b
    ensures LastSlash(a + "/" + b) == Some(|a|)
    ensures (a + "/" + b)[..|a|] == a && (a + "/" + b)[|a| + 1..] == b
    decreases |b|
  {
    var path := a + "/" + b;
    if b == "" {
      assert path == a + "/";
    } else {
      assert path[|path| - 1] == b[|b| - 1];
      assert path[..|path| - 1] == a + "/" + b[..|b| - 1];
      LastSlashAt(a, b[..|b| - 1]);
    }
  }

  /** A rendered path splits at its last '/' into the rendered parent and the encoded last token. */
  lemma SplitPath(path: seq<string>)
    requires path != []
    ensures var text := Render(path);
      && LastSlash(text) == Some(|Render(Parent(path))|)
      && text[..|Render(Parent(path))|] == Render(Parent(path))
      && text[|Render(Parent(path))| + 1..] == Encode(Last(path))
  {
    assert path == Parent(path) + [Last(path)];
    RenderAppend(Parent(path), [Last(path)]);
    var tail := [Last(path)];
    assert tail[1..] == [] && Render(tail) == "/" + (Encode(tail[0]) + Render([]));
    assert Render(path) == Render(Parent(path)) + "/" + Encode(Last(path));
    LastSlashAt(Render(Parent(path)), Encode(Last(path)));
  }

  // ---------- editing the node a path leads to ----------

  lemma SetChildMeaning(j: Json, token: string, rest: string, i: nat, c: Json, cs: bool)
    requires DistinctSiblings(j, cs)
    requires j.Array? ==> IndexSane(Encode(token))
    requires rest == "" || rest[0] == '/'
    requires Step(j, Encode(token) + rest, cs) == Some(i)
    requires DocChild(Meaning(j, cs), token, cs).Some?
    ensures Meaning(SetChild(j, i, c), cs) == PutChild(Meaning(j, cs), token, Meaning(c, cs), cs)
  {
    SegmentOf(Encode(token), rest);
    match j
    case Array(items) =>
      WrittenIndex(token);
      IndexTokenIsRfc(Encode(token));
      assert Elements(items[i := c], cs) == Elements(items, cs)[i := Meaning(c, cs)];
    case Object(members) =>
      MatchIsKeyIndex(members, token, Encode(token) + rest, cs);
      assert DistinctMembers(members, cs);
      FieldsSet(members, i, c, cs);
    case _ =>
  }

  lemma {:induction false} DistinctAt(j: Json, pos: Position, cs: bool)
    requires DistinctSiblings(j, cs) && IsNode(j, pos)
    ensures DistinctSiblings(NodeAt(j, pos), cs)
    decreases |pos|
  {
    if pos != [] {
      DistinctChild(j, pos[0], cs);
      DistinctAt(Children(j)[pos[0]], pos[1..], cs);
    }
  }

  lemma SetChildDistinct(j: Json, i: nat, c: Json, cs: bool)
    requires DistinctSiblings(j, cs) && i < |Children(j)| && DistinctSiblings(c, cs)
    ensures DistinctSiblings(SetChild(j, i, c), cs)
  {
    match j
    case Array(items) =>
      assert forall x :: x in items[i := c] ==> x == c || x in items;
    case Object(members) =>
      var after := members[i := members[i].(value := c)];
      assert DistinctMembers(members, cs);
      assert forall m :: m in after ==> m == members[i].(value := c) || m in members;
      assert DistinctMembers(after, cs);
    case _ =>
  }

  /** Overwriting the node a rendered path leads to is replacing the value at that path. */
  lemma {:induction false} PutMeans(j: Json, path: seq<string>, pos: Position, node: Json, cs: bool)
    requires DistinctSiblings(j, cs) && DistinctSiblings(node, cs)
    requires SanePath(Meaning(j, cs), path, cs)
    requires Locate(j, Render(path), cs) == Some(pos) && DocGet(Meaning(j, cs), path, cs).Some?
    ensures IsNode(j, pos)
    ensures Meaning(Put(j, pos, node), cs) == DocPut(Meaning(j, cs), path, Meaning(node, cs), cs)
    ensures DistinctSiblings(Put(j, pos, node), cs)
    decreases |path|
  {
    if path != [] {
      var rest := Render(path[1..]);
      var token := Encode(path[0]) + rest;
      StepIsDocChild(j, path[0], rest, cs);
      var i := Step(j, token, cs).value;
      LocateUnfold(j, token, i, rest, cs);
      var child := Children(j)[i];
      var sub := Locate(child, rest, cs).value;
      assert pos == [i] + sub && pos[1..] == sub;
      DistinctChild(j, i, cs);
      PutMeans(child, path[1..], sub, node, cs);
      var changed := Put(child, sub, node);
      SetChildMeaning(j, path[0], rest, i, changed, cs);
      SetChildDistinct(j, i, changed, cs);
    }
  }

  lemma PutIsDocPut(j: Json, path: seq<string>, pos: Position, node: Json, cs: bool)
    requires DistinctSiblings(j, cs) && DistinctSiblings(node, cs)
    requires SanePath(Meaning(j, cs), path, cs)
    requires Locate(j, Render(path), cs) == Some(pos) && DocGet(Meaning(j, cs), path, cs).Some?
    ensures IsNode(j, pos)
    ensures Meaning(Put(j, pos, node), cs) == DocPut(Meaning(j, cs), path, Meaning(node, cs), cs)
    ensures DistinctSiblings(Put(j, pos, node), cs)
  {
    PutMeans(j, path, pos, node, cs);
  }

  // ---------- the container at the end of a path ----------

  /** The last token survives decode_pointer_inplace, and meets an array only as the RFC would read it. */
  predicate Regular(d: Doc, path: seq<string>, cs: bool) {
    path != [] ==>
      && SanePath(d, Parent(path), cs)
      && Restorable(Last(path))
      && (var container := DocGet(d, Parent(path), cs);
          container.Some? && container.value.Arr? ==> IndexSane(Last(path)))
  }

  /** The first member that matches the name up to letter case, if there is one, is the one that was asked for. */
  predicate FirstIsExact(members: seq<Member<Json>>, name: string, cs: bool) {
    var i := KeyIndex(members, name, false);
    i < |members| ==> Norm(cs, members[i].key) == Norm(cs, name)
  }

  /** So it is in the object at the end of the path: what detach_path needs, because it ignores case in every mode. */
  predicate Unmistaken(doc: Json, path: seq<string>, cs: bool) {
    path != [] ==>
      var pos := Locate(doc, Render(Parent(path)), cs);
      pos.Some? && NodeAt(doc, pos.value).Object? ==> FirstIsExact(NodeAt(doc, pos.value).members, Last(path), cs)
  }

  lemma {:induction false} ExactIndex(members: seq<Member<Json>>, name: string, cs: bool)
    ensures FirstIsExact(members, name, cs) <==> KeyIndex(members, name, cs) == KeyIndex(members, name, false)
  {
    var i, j := KeyIndex(members, name, cs), KeyIndex(members, name, false);
    if j < i && j < |members| {
      assert Norm(cs, members[j].key) != Norm(cs, name);
    }
  }

  lemma RemoveMember(members: seq<Member<Json>>, name: string, cs: bool)
    requires DistinctSiblings(Object(members), cs) && FirstIsExact(members, name, cs)
    ensures var i := KeyIndex(members, name, false);
      && i == KeyIndex(members, name, cs)
      && (i < |members| <==> DocChild(Meaning(Object(members), cs), name, cs).Some?)
      && (i < |members| ==>
            && Some(Meaning(Object(RemoveAt(members, i)), cs)) == RemoveFrom(Meaning(Object(members), cs), name, cs)
            && Some(Meaning(members[i].value, cs)) == DocChild(Meaning(Object(members), cs), name, cs)
            && DistinctSiblings(Object(RemoveAt(members, i)), cs)
            && DistinctSiblings(members[i].value, cs))
  {
    ExactIndex(members, name, cs);
    FieldsLookup(members, name, cs);
    var i := KeyIndex(members, name, cs);
    assert DistinctMembers(members, cs);
    if i < |members| {
      FieldsRemove(members, i, cs);
      assert members[i] in members;
      DistinctRemove(members, i, cs);
      assert DistinctMembers(RemoveAt(members, i), cs);
    }
  }

  lemma DistinctRemove(members: seq<Member<Json>>, i: nat, cs: bool)
    requires i < |members| && DistinctUnder(members, cs)
    ensures DistinctUnder(RemoveAt(members, i), cs)
  {
  }

  lemma RemoveElement(items: seq<Json>, token: string, cs: bool)
    requires DistinctSiblings(Array(items), cs) && IndexSane(token) && '/' !in token
    ensures var i := IndexToken(Segment(token));
      && (i.Some? && i.value < |items| <==> DocChild(Meaning(Array(items), cs), token, cs).Some?)
      && (i.Some? && i.value < |items| ==>
            && Some(Meaning(Array(RemoveAt(items, i.value)), cs)) == RemoveFrom(Meaning(Array(items), cs), token, cs)
            && Some(Meaning(items[i.value], cs)) == DocChild(Meaning(Array(items), cs), token, cs)
            && DistinctSiblings(Array(RemoveAt(items, i.value)), cs)
            && DistinctSiblings(items[i.value], cs))
  {
    SegmentOf(token, "");
    assert token + "" == token;
    IndexTokenIsRfc(token);
    var i := IndexToken(token);
    if i.Some? && i.value < |items| {
      var e := Elements(items, cs);
      assert Elements(RemoveAt(items, i.value), cs) == e[..i.value] + e[i.value + 1..];
    }
  }

  lemma AddMember(members: seq<Member<Json>>, name: string, value: Json, cs: bool)
    requires DistinctSiblings(Object(members), cs) && DistinctSiblings(value, cs)
    ensures Some(Meaning(Object(SetMember(members, name, value, cs)), cs)) ==
            AddTo(Meaning(Object(members), cs), name, Meaning(value, cs), cs)
    ensures DistinctSiblings(Object(SetMember(members, name, value, cs)), cs)
  {
    var i, m := KeyIndex(members, name, cs), Member(name, value);
    var rest := if i < |members| then RemoveAt(members, i) else members;
    assert DistinctMembers(members, cs);
    NameGone(members, name, cs);
    SetMemberFields(members, name, value, cs);
    MembersDistinct(members, rest, m, cs);
  }

  lemma SetMemberFields(members: seq<Member<Json>>, name: string, value: Json, cs: bool)
    requires DistinctUnder(members, cs)
    ensures Fields(SetMember(members, name, value, cs), cs) == Fields(members, cs)[Norm(cs, name) := Meaning(value, cs)]
  {
    var i, m := KeyIndex(members, name, cs), Member(name, value);
    NameGone(members, name, cs);
    if i < |members| {
      FieldsAppend(RemoveAt(members, i), m, cs);
      FieldsRemove(members, i, cs);
      MapReplace(Fields(members, cs), Norm(cs, name), Meaning(value, cs));
    } else {
      FieldsAppend(members, m, cs);
    }
  }

  lemma MapReplace<K, V>(f: map<K, V>, k: K, v: V)
    ensures (f - {k})[k := v] == f[k := v]
  {
  }

  lemma MembersDistinct(members: seq<Member<Json>>, rest: seq<Member<Json>>, m: Member<Json>, cs: bool)
    requires DistinctSiblings(Object(members), cs) && DistinctSiblings(m.value, cs)
    requires DistinctUnder(rest, cs) && KeyIndex(rest, m.key, cs) == |rest|
    requires forall x :: x in rest ==> x in members
    ensures DistinctSiblings(Object(rest + [m]), cs)
  {
    DistinctAppend(rest, m, cs);
    assert DistinctMembers(members, cs);
    assert forall x :: x in rest + [m] ==> x == m || x in members;
    assert DistinctMembers(rest + [m], cs);
  }

  /** After removing the first member of a name there is no other. */
  lemma NameGone(members: seq<Member<Json>>, name: string, cs: bool)
    requires DistinctUnder(members, cs)
    ensures var i := KeyIndex(members, name, cs);
      var rest := if i < |members| then RemoveAt(members, i) else members;
      DistinctUnder(rest, cs) && KeyIndex(rest, name, cs) == |rest|
  {
    var i := KeyIndex(members, name, cs);
    var rest := if i < |members| then RemoveAt(members, i) else members;
    forall j | 0 <= j < |rest| ensures Norm(cs, rest[j].key) != Norm(cs, name) {
      if i < |members| {
        assert rest[j] == members[if j < i then j else j + 1];
      }
    }
    if i < |members| {
      DistinctRemove(members, i, cs);
    }
  }

  lemma DistinctAppend(members: seq<Member<Json>>, m: Member<Json>, cs: bool)
    requires DistinctUnder(members, cs) && KeyIndex(members, m.key, cs) == |members|
    ensures DistinctUnder(members + [m], cs)
  {
  }

  lemma SetMemberDistinct(members: seq<Member<Json>>, name: string, value: Json, cs: bool)
    requires DistinctMembers(members, cs) && DistinctSiblings(value, cs)
    ensures DistinctMembers(SetMember(members, name, value, cs), cs)
  {
    NameGone(members, name, cs);
    var i := KeyIndex(members, name, cs);
    var rest := if i < |members| then RemoveAt(members, i) else members;
    DistinctAppend(rest, Member(name, value), cs);
    assert forall m :: m in rest + [Member(name, value)] ==> m in members || m == Member(name, value);
  }

  lemma InsertElement(items: seq<Json>, token: string, value: Json, cs: bool)
    requires DistinctSiblings(Array(items), cs) && DistinctSiblings(value, cs) && IndexSane(token) && '/' !in token
    ensures var r := AddElement(items, token, value);
      && (r.0 == 0 <==> AddTo(Meaning(Array(items), cs), token, Meaning(value, cs), cs).Some?)
      && (r.0 == 0 ==>
            && Some(Meaning(Array(r.1), cs)) == AddTo(Meaning(Array(items), cs), token, Meaning(value, cs), cs)
            && DistinctSiblings(Array(r.1), cs))
  {
    SegmentOf(token, "");
    assert token + "" == token;
    IndexTokenIsRfc(token);
    if token == "-" {
      ElementsInsert(items, |items|, value, cs);
      var e := Elements(items, cs);
      assert items[..|items|] + [value] + items[|items|..] == items + [value];
      assert e[..|e|] + [Meaning(value, cs)] + e[|e|..] == e + [Meaning(value, cs)];
    } else if IndexToken(token).Some? && IndexToken(token).value <= |items| {
      ElementsInsert(items, IndexToken(token).value, value, cs);
    }
  }

  lemma ElementsInsert(items: seq<Json>, i: nat, value: Json, cs: bool)
    requires i <= |items|
    ensures Elements(items[..i] + [value] + items[i..], cs) ==
            Elements(items, cs)[..i] + [Meaning(value, cs)] + Elements(items, cs)[i..]
  {
    ElementsJoin(items[..i], [value], cs);
    ElementsJoin(items[..i] + [value], items[i..], cs);
    ElementsSlice(items, i, cs);
    assert Elements([value], cs) == [Meaning(value, cs)];
  }

  lemma ElementsJoin(a: seq<Json>, b: seq<Json>, cs: bool)
    ensures Elements(a + b, cs) == Elements(a, cs) + Elements(b, cs)
  {
    forall k | 0 <= k < |a + b| ensures Elements(a + b, cs)[k] == (Elements(a, cs) + Elements(b, cs))[k] {
      assert (a + b)[k] == if k < |a| then a[k] else b[k - |a|];
    }
  }

  lemma ElementsSlice(items: seq<Json>, i: nat, cs: bool)
    requires i <= |items|
    ensures Elements(items[..i], cs) == Elements(items, cs)[..i]
    ensures Elements(items[i..], cs) == Elements(items, cs)[i..]
  {
  }

  // ---------- detach_path and adding ----------

  /** The code on a rendered path, without the path text. */
  lemma UnrenderPath(doc: Json, path: seq<string>, value: Json, cs: bool)
    requires path != [] && Restorable(Last(path))
    ensures var parent := Locate(doc, Render(Parent(path)), cs);
      && DetachPath(doc, Render(path), cs) ==
           (if parent == None then Nothing else DetachChild(doc, parent.value, Last(path)))
      && AddAt(doc, Render(path), value, cs) ==
           (if parent == None then Applied(9, doc) else AddChild(doc, parent.value, Last(path), value, cs))
  {
    SplitPath(path);
    DecodeUndoesEncodeIff(Last(path));
  }

  lemma DetachChildIsRemove(doc: Json, path: seq<string>, pos: Position, cs: bool)
    requires DistinctSiblings(doc, cs) && path != [] && Regular(Meaning(doc, cs), path, cs) && Unmistaken(doc, path, cs)
    requires Locate(doc, Render(Parent(path)), cs) == Some(pos)
    requires DocGet(Meaning(doc, cs), Parent(path), cs) == Some(Meaning(NodeAt(doc, pos), cs))
    ensures var r, container := DetachChild(doc, pos, Last(path)), Meaning(NodeAt(doc, pos), cs);
      && (r.Detached? <==> RemoveFrom(container, Last(path), cs).Some?)
      && (r.Detached? ==>
            && Meaning(r.rest, cs) ==
                 DocPut(Meaning(doc, cs), Parent(path), RemoveFrom(container, Last(path), cs).value, cs)
            && DocChild(container, Last(path), cs) == Some(Meaning(r.item, cs))
            && DistinctSiblings(r.rest, cs) && DistinctSiblings(r.item, cs))
  {
    DistinctAt(doc, pos, cs);
    var child := Last(path);
    match NodeAt(doc, pos)
    case Array(items) =>
      RemoveElement(items, child, cs);
      var i := IndexToken(Segment(child));
      if i.Some? && i.value < |items| {
        PutIsDocPut(doc, Parent(path), pos, Array(RemoveAt(items, i.value)), cs);
      }
    case Object(members) =>
      RemoveMember(members, child, cs);
      var i := KeyIndex(members, child, false);
      if i < |members| {
        PutIsDocPut(doc, Parent(path), pos, Object(RemoveAt(members, i)), cs);
      }
    case _ =>
  }

  /** detach_path removes what RFC 6902 removes, and returns what was there. */
  lemma DetachIsRemove(doc: Json, path: seq<string>, cs: bool)
    requires DistinctSiblings(doc, cs) && path != [] && Regular(Meaning(doc, cs), path, cs) && Unmistaken(doc, path, cs)
    ensures var r, m := DetachPath(doc, Render(path), cs), Meaning(doc, cs);
      && (r.Detached? <==> DocRemove(m, path, cs).Some?)
      && (r.Detached? ==>
            && DocRemove(m, path, cs) == Some(Meaning(r.rest, cs))
            && DocGet(m, path, cs) == Some(Meaning(r.item, cs))
            && DistinctSiblings(r.rest, cs) && DistinctSiblings(r.item, cs))
  {
    UnrenderPath(doc, path, doc, cs);
    LocateIsDocGet(doc, Parent(path), cs);
    DocGetSplit(Meaning(doc, cs), path, cs);
    var pos := Locate(doc, Render(Parent(path)), cs);
    if pos.Some? {
      DetachChildIsRemove(doc, path, pos.value, cs);
    }
  }

  lemma {:induction false} DocGetSplit(d: Doc, path: seq<string>, cs: bool)
    requires path != []
    ensures DocGet(d, path, cs) ==
            var container := DocGet(d, Parent(path), cs);
            if container == None then None else DocChild(container.value, Last(path), cs)
    decreases |path|
  {
    if |path| > 1 {
      var child := DocChild(d, path[0], cs);
      assert Parent(path)[1..] == Parent(path[1..]);
      if child.Some? {
        DocGetSplit(child.value, path[1..], cs);
      }
    } else {
      assert path[1..] == [];
    }
  }

  lemma AddChildIsAdd(doc: Json, path: seq<string>, pos: Position, value: Json, cs: bool)
    requires DistinctSiblings(doc, cs) && DistinctSiblings(value, cs)
    requires path != [] && Regular(Meaning(doc, cs), path, cs)
    requires Locate(doc, Render(Parent(path)), cs) == Some(pos)
    requires DocGet(Meaning(doc, cs), Parent(path), cs) == Some(Meaning(NodeAt(doc, pos), cs))
    ensures var r := AddChild(doc, pos, Last(path), value, cs);
      var changed := AddTo(Meaning(NodeAt(doc, pos), cs), Last(path), Meaning(value, cs), cs);
      && (r.status == 0 <==> changed.Some?)
      && (r.status == 0 ==>
            && Meaning(r.doc, cs) == DocPut(Meaning(doc, cs), Parent(path), changed.value, cs)
            && DistinctSiblings(r.doc, cs))
  {
    DistinctAt(doc, pos, cs);
    match NodeAt(doc, pos)
    case Array(items) =>
      InsertElement(items, Last(path), value, cs);
      var r := AddElement(items, Last(path), value);
      if r.0 == 0 {
        PutIsDocPut(doc, Parent(path), pos, Array(r.1), cs);
      }
    case Object(members) =>
      AddMember(members, Last(path), value, cs);
      PutIsDocPut(doc, Parent(path), pos, Object(SetMember(members, Last(path), value, cs)), cs);
    case _ =>
  }

  /** Adding at a path below the root is the "add" of RFC 6902. */
  lemma AddIsDocAdd(doc: Json, path: seq<string>, value: Json, cs: bool)
    requires DistinctSiblings(doc, cs) && DistinctSiblings(value, cs)
    requires path != [] && Regular(Meaning(doc, cs), path, cs)
    ensures var r, m := AddAt(doc, Render(path), value, cs), DocAdd(Meaning(doc, cs), path, Meaning(value, cs), cs);
      && (r.status == 0 <==> m.Some?)
      && (r.status == 0 ==> m == Some(Meaning(r.doc, cs)) && DistinctSiblings(r.doc, cs))
  {
    UnrenderPath(doc, path, value, cs);
    LocateIsDocGet(doc, Parent(path), cs);
    var pos, container := Locate(doc, Render(Parent(path)), cs), DocGet(Meaning(doc, cs), Parent(path), cs);
    if pos.Some? {
      AddChildIsAdd(doc, path, pos.value, value, cs);
      assert container == Some(Meaning(NodeAt(doc, pos.value), cs));
    } else {
      assert container == None;
    }
  }

  // ---------- replace is remove and add ----------

  lemma {:induction false} DocPutTwice(d: Doc, path: seq<string>, v: Doc, w: Doc, cs: bool)
    requires DocGet(d, path, cs).Some?
    ensures DocGet(DocPut(d, path, v, cs), path, cs) == Some(v)
    ensures DocPut(DocPut(d, path, v, cs), path, w, cs) == DocPut(d, path, w, cs)
    ensures SanePath(d, path, cs) ==> SanePath(DocPut(d, path, v, cs), path, cs)
    decreases |path|
  {
    if path != [] {
      var child := DocChild(d, path[0], cs).value;
      DocPutTwice(child, path[1..], v, w, cs);
      PutChildTwice(d, path[0], DocPut(child, path[1..], v, cs), DocPut(child, path[1..], w, cs), cs);
    }
  }

  lemma PutChildTwice(d: Doc, token: string, v: Doc, w: Doc, cs: bool)
    requires DocChild(d, token, cs).Some?
    ensures DocChild(PutChild(d, token, v, cs), token, cs) == Some(v)
    ensures PutChild(PutChild(d, token, v, cs), token, w, cs) == PutChild(d, token, w, cs)
    ensures PutChild(d, token, v, cs).Arr? == d.Arr?
  {
  }

  lemma {:induction false} DocPutSplit(d: Doc, path: seq<string>, v: Doc, cs: bool)
    requires path != [] && DocGet(d, path, cs).Some?
    ensures DocGet(d, Parent(path), cs).Some? && DocChild(DocGet(d, Parent(path), cs).value, Last(path), cs).Some?
    ensures DocPut(d, path, v, cs) ==
            DocPut(d, Parent(path), PutChild(DocGet(d, Parent(path), cs).value, Last(path), v, cs), cs)
    decreases |path|
  {
    DocGetSplit(d, path, cs);
    if |path| > 1 {
      assert Parent(path)[1..] == Parent(path[1..]);
      DocPutSplit(DocChild(d, path[0], cs).value, path[1..], v, cs);
    } else {
      assert path[1..] == [];
    }
  }

  lemma RemoveThenAddTo(container: Doc, token: string, v: Doc, cs: bool)
    requires RemoveFrom(container, token, cs).Some?
    ensures DocChild(container, token, cs).Some?
    ensures AddTo(RemoveFrom(container, token, cs).value, token, v, cs) == Some(PutChild(container, token, v, cs))
    ensures RemoveFrom(container, token, cs).value.Arr? == container.Arr?
    ensures RemoveFrom(container, token, cs).value.Obj? == container.Obj?
  {
    match container
    case Arr(elements) =>
      var i := Rfc6901Index(token).value;
      var rest := elements[..i] + elements[i + 1..];
      assert token != "-" by {
        assert !IsDigit('-') && "-"[0] == '-';
      }
      assert rest[..i] + [v] + rest[i..] == elements[i := v];
    case Obj(fields) =>
      assert (fields - {Norm(cs, token)})[Norm(cs, token) := v] == fields[Norm(cs, token) := v];
    case Atom(_) =>
  }

  /** Removing a value and adding another one at the same path is replacing it. */
  lemma ReplaceIsRemoveAdd(d: Doc, path: seq<string>, v: Doc, cs: bool)
    requires path != []
    ensures DocGet(d, path, cs).Some? <==> DocRemove(d, path, cs).Some?
    ensures DocGet(d, path, cs).Some? ==>
              DocAdd(DocRemove(d, path, cs).value, path, v, cs) == Some(DocPut(d, path, v, cs))
    ensures DocGet(d, path, cs).Some? && Regular(d, path, cs) ==> Regular(DocRemove(d, path, cs).value, path, cs)
  {
    DocGetSplit(d, path, cs);
    if DocGet(d, path, cs).Some? {
      var container := DocGet(d, Parent(path), cs).value;
      var less := RemoveFrom(container, Last(path), cs).value;
      RemoveThenAddTo(container, Last(path), v, cs);
      DocPutSplit(d, path, v, cs);
      DocPutTwice(d, Parent(path), less, PutChild(container, Last(path), v, cs), cs);
    }
  }

  // ---------- apply_patch ----------

  /** The patch document spells out this operation. */
  predicate Says(patch: Json, op: Operation, cs: bool) {
    && ObjectItem(patch, "path", cs) == Some(String(Render(op.path)))
    && ObjectItem(patch, "op", cs) == Some(String(OpWord(op)))
    && (op.Add? || op.Replace? || op.Test? ==>
          var value := ObjectItem(patch, "value", cs);
          value.Some? && Meaning(value.value, cs) == op.value && DistinctSiblings(value.value, cs))
    && (op.Move? || op.Copy? ==> ObjectItem(patch, "from", cs) == Some(String(Render(op.from))))
  }

  function OpcodeOf(op: Operation): Opcode {
    match op
    case Add(_, _) => ADD
    case Remove(_) => REMOVE
    case Replace(_, _) => REPLACE
    case Move(_, _) => MOVE
    case Copy(_, _) => COPY
    case Test(_, _) => TEST
  }

  lemma WordsDiffer()
    ensures |"add"| == 3 && |"remove"| == 6 && |"replace"| == 7 && |"move"| == |"copy"| == |"test"| == 4
    ensures "move" != "copy" && "copy" != "test" && "test" != "move"
  {
    assert "move"[0] == 'm' && "copy"[0] == 'c' && "test"[0] == 't';
  }

  /** decode_patch_operation tells the six words apart. */
  lemma DecodesWord(patch: Json, op: Operation, cs: bool)
    requires ObjectItem(patch, "op", cs) == Some(String(OpWord(op)))
    ensures DecodePatchOperation(patch, cs) == OpcodeOf(op) != INVALID
  {
    WordsDiffer();
  }

  /** And it refuses exactly what is none of them. */
  lemma InvalidIff(patch: Json, cs: bool)
    ensures DecodePatchOperation(patch, cs) == INVALID <==>
            var word := ObjectItem(patch, "op", cs); !(word.Some? && word.value.String? && IsOpWord(word.value.s))
  {
    WordsDiffer();
  }

  /** The paths of the operation are ones the code and the RFC read alike; "move" and "copy" do not aim at the root. */
  predicate Covered(doc: Json, op: Operation, cs: bool) {
    var d := Meaning(doc, cs);
    match op
    case Add(path, _) => Regular(d, path, cs)
    case Remove(path) => Regular(d, path, cs) && Unmistaken(doc, path, cs)
    case Replace(path, _) => Regular(d, path, cs) && Unmistaken(doc, path, cs)
    case Move(from, path) =>
      && from != [] && path != [] && !ProperPrefix(from, path) && Regular(d, from, cs) && Unmistaken(doc, from, cs)
      && (DocRemove(d, from, cs).Some? ==> Regular(DocRemove(d, from, cs).value, path, cs))
    case Copy(from, path) => path != [] && SanePath(d, from, cs) && Regular(d, path, cs)
    case Test(path, _) => SanePath(d, path, cs)
  }

  /** The call succeeds exactly when the RFC has a result, and then leaves a tree that means it. */
  predicate Refines(r: Applied, m: Option<Doc>, cs: bool) {
    && (r.status == 0 <==> m.Some?)
    && (r.status == 0 ==> m == Some(Meaning(r.doc, cs)) && DistinctSiblings(r.doc, cs))
  }

  /** A value that was fetched, or not, and is then added. */
  lemma AddFetched(fetched: Detached, status: int, doc: Json, path: seq<string>, value: Option<Doc>, rest: Doc, cs: bool)
    requires fetched == Nothing ==> status != 0
    requires fetched.Detached? <==> value.Some?
    requires fetched.Detached? ==>
      && DistinctSiblings(fetched.rest, cs) && DistinctSiblings(fetched.item, cs)
      && Meaning(fetched.rest, cs) == rest && Some(Meaning(fetched.item, cs)) == value
      && path != [] && Regular(rest, path, cs)
    ensures Refines(if fetched == Nothing then Applied(status, doc) else AddAt(fetched.rest, Render(path), fetched.item, cs),
                    if value == None then None else DocAdd(rest, path, value.value, cs), cs)
  {
    if fetched.Detached? {
      AddIsDocAdd(fetched.rest, path, fetched.item, cs);
    }
  }

  lemma MoveRefines(doc: Json, patch: Json, op: Operation, cs: bool)
    requires op.Move?
    requires DistinctSiblings(doc, cs) && Says(patch, op, cs) && Covered(doc, op, cs)
    ensures Refines(ApplyBelowRoot(doc, patch, Render(op.path), MOVE, cs), Perform(Meaning(doc, cs), op, cs), cs)
  {
    var m := Meaning(doc, cs);
    var (status, fetched) := Fetch(doc, patch, MOVE, cs);
    DetachIsRemove(doc, op.from, cs);
    var value, rest := DocGet(m, op.from, cs), DocRemove(m, op.from, cs);
    DocGetSplit(m, op.from, cs);
    AddFetched(fetched, status, doc, op.path, value, if rest.Some? then rest.value else m, cs);
  }

  lemma CopyRefines(doc: Json, patch: Json, op: Operation, cs: bool)
    requires op.Copy?
    requires DistinctSiblings(doc, cs) && Says(patch, op, cs) && Covered(doc, op, cs)
    ensures Refines(ApplyBelowRoot(doc, patch, Render(op.path), COPY, cs), Perform(Meaning(doc, cs), op, cs), cs)
  {
    var m := Meaning(doc, cs);
    var (status, fetched) := Fetch(doc, patch, COPY, cs);
    LocateIsDocGet(doc, op.from, cs);
    var pos := Locate(doc, Render(op.from), cs);
    if pos.Some? {
      DistinctAt(doc, pos.value, cs);
    }
    AddFetched(fetched, status, doc, op.path, DocGet(m, op.from, cs), m, cs);
  }

  lemma ReplaceRefines(doc: Json, patch: Json, op: Operation, cs: bool)
    requires op.Replace? && op.path != []
    requires DistinctSiblings(doc, cs) && Says(patch, op, cs) && Covered(doc, op, cs)
    ensures Refines(ApplyBelowRoot(doc, patch, Render(op.path), REPLACE, cs), Perform(Meaning(doc, cs), op, cs), cs)
  {
    var value := ObjectItem(patch, "value", cs).value;
    DetachThenAdd(doc, op.path, value, cs);
    ReplaceBranch(doc, patch, Render(op.path), value, cs);
    assert op == Replace(op.path, Meaning(value, cs));
  }

  lemma ReplaceBranch(doc: Json, patch: Json, path: string, value: Json, cs: bool)
    requires ObjectItem(patch, "value", cs) == Some(value)
    ensures ApplyBelowRoot(doc, patch, path, REPLACE, cs) ==
            var gone := DetachPath(doc, path, cs);
            if gone == Nothing then Applied(13, doc) else AddAt(gone.rest, path, value, cs)
  {
  }

  /** Detaching what is there and adding something else is replacing it. */
  lemma DetachThenAdd(doc: Json, path: seq<string>, value: Json, cs: bool)
    requires path != [] && DistinctSiblings(doc, cs) && DistinctSiblings(value, cs)
    requires Regular(Meaning(doc, cs), path, cs) && Unmistaken(doc, path, cs)
    ensures var gone := DetachPath(doc, Render(path), cs);
      Refines(if gone == Nothing then Applied(13, doc) else AddAt(gone.rest, Render(path), value, cs),
              Perform(Meaning(doc, cs), Replace(path, Meaning(value, cs)), cs), cs)
  {
    DetachIsRemove(doc, path, cs);
    ReplaceIsRemoveAdd(Meaning(doc, cs), path, Meaning(value, cs), cs);
    var gone := DetachPath(doc, Render(path), cs);
    if gone.Detached? {
      AddIsDocAdd(gone.rest, path, value, cs);
    }
  }

  lemma {:induction false} DocPutSame(d: Doc, path: seq<string>, cs: bool)
    requires DocGet(d, path, cs).Some?
    ensures DocPut(d, path, DocGet(d, path, cs).value, cs) == d
    decreases |path|
  {
    if path != [] {
      DocPutSame(DocChild(d, path[0], cs).value, path[1..], cs);
    }
  }

  /** Overwriting a node with one that means the same. */
  lemma PutAlike(doc: Json, path: seq<string>, pos: Position, node: Json, cs: bool)
    requires DistinctSiblings(doc, cs) && DistinctSiblings(node, cs) && SanePath(Meaning(doc, cs), path, cs)
    requires Locate(doc, Render(path), cs) == Some(pos) && DocGet(Meaning(doc, cs), path, cs) == Some(Meaning(node, cs))
    ensures Meaning(Put(doc, pos, node), cs) == Meaning(doc, cs) && DistinctSiblings(Put(doc, pos, node), cs)
  {
    PutMeans(doc, path, pos, node, cs);
    DocPutSame(Meaning(doc, cs), path, cs);
  }

  lemma TestAt(doc: Json, value: Json, path: seq<string>, pos: Position, cs: bool) returns (after: Json)
    requires DistinctSiblings(doc, cs) && DistinctSiblings(value, cs) && SanePath(Meaning(doc, cs), path, cs)
    requires Locate(doc, Render(path), cs) == Some(pos) && DocGet(Meaning(doc, cs), path, cs) == Some(Meaning(NodeAt(doc, pos), cs))
    ensures after == Put(doc, pos, Left(NodeAt(doc, pos), value, cs))
    ensures JsonEqual(NodeAt(doc, pos), value, cs) <==> DocGet(Meaning(doc, cs), path, cs) == Some(Meaning(value, cs))
    ensures Meaning(after, cs) == Meaning(doc, cs) && DistinctSiblings(after, cs)
  {
    var node := NodeAt(doc, pos);
    var left := Left(node, value, cs);
    DistinctAt(doc, pos, cs);
    JsonEqualIffSameMeaning(node, value, cs);
    LeftMeans(node, value, cs, cs);
    PutAlike(doc, path, pos, left, cs);
    after := Put(doc, pos, left);
  }

  lemma TestConcludes(r: Applied, d: Doc, path: seq<string>, v: Doc, cs: bool)
    requires r.status == 0 <==> DocGet(d, path, cs) == Some(v)
    requires r.status == 0 ==> Meaning(r.doc, cs) == d && DistinctSiblings(r.doc, cs)
    ensures Refines(r, Perform(d, Test(path, v), cs), cs)
  {
  }

  /** A "test" compares what the pointer leads to with the given value, and leaves a document that means the same. */
  lemma TestRefines(doc: Json, value: Json, path: seq<string>, cs: bool)
    requires DistinctSiblings(doc, cs) && DistinctSiblings(value, cs) && SanePath(Meaning(doc, cs), path, cs)
    ensures Refines(TestPatch(doc, Render(path), Some(value), cs), Perform(Meaning(doc, cs), Test(path, Meaning(value, cs)), cs), cs)
  {
    LocateIsDocGet(doc, path, cs);
    var pos := Locate(doc, Render(path), cs);
    var r := TestPatch(doc, Render(path), Some(value), cs);
    if pos.Some? {
      var after := TestAt(doc, value, path, pos.value, cs);
      assert r.doc == after;
    }
    TestConcludes(r, Meaning(doc, cs), path, Meaning(value, cs), cs);
  }

  /** Operations on the document as a whole. */
  lemma RootRefines(doc: Json, patch: Json, op: Operation, cs: bool)
    requires (op.Add? || op.Remove? || op.Replace?) && op.path == []
    requires DistinctSiblings(doc, cs) && Says(patch, op, cs)
    ensures Refines(ApplyPatch(doc, patch, cs), Perform(Meaning(doc, cs), op, cs), cs)
  {
    DecodesWord(patch, op, cs);
  }

  /** The operations behind the special case for the root. */
  lemma BelowRootRefines(doc: Json, patch: Json, op: Operation, cs: bool)
    requires !op.Test? && op.path != []
    requires DistinctSiblings(doc, cs) && Says(patch, op, cs) && Covered(doc, op, cs)
    ensures Refines(ApplyBelowRoot(doc, patch, Render(op.path), OpcodeOf(op), cs), Perform(Meaning(doc, cs), op, cs), cs)
  {
    match op
    case Move(_, _) => MoveRefines(doc, patch, op, cs);
    case Copy(_, _) => CopyRefines(doc, patch, op, cs);
    case Replace(_, _) => ReplaceRefines(doc, patch, op, cs);
    case Remove(path) => DetachIsRemove(doc, path, cs);
    case Add(path, _) => AddIsDocAdd(doc, path, ObjectItem(patch, "value", cs).value, cs);
  }

  /** What apply_patch does first. */
  lemma Dispatch(doc: Json, patch: Json, op: Operation, cs: bool)
    requires Says(patch, op, cs)
    ensures op.Test? ==> ApplyPatch(doc, patch, cs) == TestPatch(doc, Render(op.path), ObjectItem(patch, "value", cs), cs)
    ensures !op.Test? && op.path != [] ==>
              ApplyPatch(doc, patch, cs) == ApplyBelowRoot(doc, patch, Render(op.path), OpcodeOf(op), cs)
  {
    DecodesWord(patch, op, cs);
  }

  /** apply_patch succeeds exactly when RFC 6902 allows the operation, and then leaves the document the RFC describes. */
  lemma ApplyPatchRefinesRfc6902(doc: Json, patch: Json, op: Operation, cs: bool)
    requires DistinctSiblings(doc, cs) && Says(patch, op, cs) && Covered(doc, op, cs)
    ensures Refines(ApplyPatch(doc, patch, cs), Perform(Meaning(doc, cs), op, cs), cs)
  {
    Dispatch(doc, patch, op, cs);
    if op.Test? {
      TestRefines(doc, ObjectItem(patch, "value", cs).value, op.path, cs);
    } else if op.path != [] {
      BelowRootRefines(doc, patch, op, cs);
    } else {
      RootRefines(doc, patch, op, cs);
    }
  }
}
