/** Generating JSON patches: compose_patch and create_patches, and the list of changes they write down. */
module JsonPatchGenerate {
  import opened CStrings
  import opened JsonTrees
  import opened JsonPointer
  import opened JsonPointerLaws
  import opened MergeSort
  import opened JsonCompare

  /** One generated operation; the path is relative to where the comparison started, one token per level. */
  datatype Change =
    | Added(path: seq<string>, value: Json)
    | Removed(path: seq<string>)
    | Replaced(path: seq<string>, value: Json)

  function Below(token: string, c: Change): Change {
    match c
    case Added(path, value) => Added([token] + path, value)
    case Removed(path) => Removed([token] + path)
    case Replaced(path, value) => Replaced([token] + path, value)
  }

  function AllBelow(token: string, changes: seq<Change>): (r: seq<Change>)
    ensures |r| == |changes|
  {
    seq(|changes|, i requires 0 <= i < |changes| => Below(token, changes[i]))
  }

  /** What turns `from` into `to`, in the order create_patches finds it. */
  function Changes(from: Json, to: Json, cs: bool): seq<Change>
    decreases Size(from), 0, 0
  {
    match (from, to)
    case (Array(x), Array(y)) => ElementChanges(x, y, 0, cs)
    case (Object(x), Object(y)) =>
      SortedSize(x, cs);
      MemberChanges(Sort(x, cs), Sort(y, cs), cs)
    case (_, _) => if from == to then [] else [Replaced([], to)]
  }

  /** Array elements from index `i` on: pairs first, then what only one side has. */
  function ElementChanges(x: seq<Json>, y: seq<Json>, i: nat, cs: bool): seq<Change>
    decreases ItemsSize(x), 1, |x| - i
  {
    if i < |x| && i < |y| then
      ItemSize(x, x[i]);
      AllBelow(Decimal(i), Changes(x[i], y[i], cs)) + ElementChanges(x, y, i + 1, cs)
    else Dropped(i, |x| - i) + Appended(y, i)
  }

  /** Every leftover element is removed at the same index. */
  function Dropped(index: nat, count: int): (r: seq<Change>)
  {
    if count <= 0 then [] else [Removed([Decimal(index)])] + Dropped(index, count - 1)
  }

  function Appended(y: seq<Json>, i: nat): seq<Change>
    decreases |y| - i
  {
    if i >= |y| then [] else [Added(["-"], y[i])] + Appended(y, i + 1)
  }

  /** Two member lists in name order, walked in step. */
  function MemberChanges(s: seq<Member<Json>>, t: seq<Member<Json>>, cs: bool): seq<Change>
    decreases MembersSize(s), 1, |s| + |t|
  {
    if s == [] && t == [] then []
    else if s == [] || (t != [] && Before(t[0], s[0], cs)) then
      [Added([t[0].key], t[0].value)] + MemberChanges(s, t[1..], cs)
    else if t == [] || Before(s[0], t[0], cs) then
      [Removed([s[0].key])] + MemberChanges(s[1..], t, cs)
    else
      AllBelow(s[0].key, Changes(s[0].value, t[0].value, cs)) + MemberChanges(s[1..], t[1..], cs)
  }

  // ---------- the patch document ----------

  function Patch(operation: string, path: string, value: Option<Json>): Json {
    Object([Member("op", String(operation)), Member("path", String(path))]
           + if value.Some? then [Member("value", value.value)] else [])
  }

  /** A change written down as an operation object. */
  function Written(prefix: string, c: Change): Json {
    match c
    case Added(path, value) => Patch("add", prefix + Render(path), Some(value))
    case Removed(path) => Patch("remove", prefix + Render(path), None)
    case Replaced(path, value) => Patch("replace", prefix + Render(path), Some(value))
  }

  function AllWritten(prefix: string, changes: seq<Change>): (r: seq<Json>)
    ensures |r| == |changes|
  {
    seq(|changes|, i requires 0 <= i < |changes| => Written(prefix, changes[i]))
  }

  lemma WrittenJoin(prefix: string, a: seq<Change>, b: seq<Change>)
    ensures AllWritten(prefix, a + b) == AllWritten(prefix, a) + AllWritten(prefix, b)
  {
  }

  lemma WrittenBelow(prefix: string, token: string, changes: seq<Change>)
    ensures AllWritten(prefix, AllBelow(token, changes)) == AllWritten(prefix + "/" + Encode(token), changes)
  {
    forall i | 0 <= i < |changes|
      ensures Written(prefix, Below(token, changes[i])) == Written(prefix + "/" + Encode(token), changes[i])
    {
      var path := changes[i].path;
      assert ([token] + path)[1..] == path;
      assert prefix + ("/" + (Encode(token) + Render(path))) == prefix + "/" + Encode(token) + Render(path);
    }
  }

  lemma WrittenOne(prefix: string, c: Change)
    ensures AllWritten(prefix, [c]) == [Written(prefix, c)]
  {
  }

  lemma RenderOne(prefix: string, token: string)
    ensures prefix + Render([token]) == prefix + "/" + Encode(token)
  {
    assert [token][1..] == [];
    assert Encode(token) + "" == Encode(token);
  }

  lemma PlainDecimal(n: nat)
    ensures Encode(Decimal(n)) == Decimal(n)
  {
    assert !IsDigit('~') && !IsDigit('/');
    EncodePlain(Decimal(n));
  }

  /** The array of patches under construction. */
  class PatchList {
    var list: seq<Json>

    constructor ()
      ensures list == []
    {
      list := [];
    }

    /** compose_patch. */
    method ComposePatch(operation: string, path: string, suffix: Option<string>, value: Option<Json>)
      modifies this
      ensures list == old(list) + [Patch(operation, if suffix.Some? then path + "/" + Encode(suffix.value) else path, value)]
    {
      var patch := [Member("op", String(operation))];
      if suffix == None {
        patch := patch + [Member("path", String(path))];
      } else {
        var encoded := EncodeStringAsPointer(suffix.value);
        patch := patch + [Member("path", String(path + "/" + encoded))];
      }
      if value.Some? {
        patch := patch + [Member("value", value.value)];
      }
      assert Object(patch) == Patch(operation, patch[1].value.s, value);
      list := list + [Object(patch)];
    }

    method ComposeRemove(path: string, name: string)
      modifies this
      ensures list == old(list) + AllWritten(path, [Removed([name])])
    {
      RenderOne(path, name);
      WrittenOne(path, Removed([name]));
      ComposePatch("remove", path, Some(name), None);
    }

    method ComposeAdd(path: string, name: string, value: Json)
      modifies this
      ensures list == old(list) + AllWritten(path, [Added([name], value)])
    {
      RenderOne(path, name);
      WrittenOne(path, Added([name], value));
      ComposePatch("add", path, Some(name), Some(value));
    }

    /** create_patches: appends the changes from `from` to `to`, as operations at `path`. */
    method CreatePatches(path: string, from: Json, to: Json, cs: bool)
      modifies this
      ensures list == old(list) + AllWritten(path, Changes(from, to, cs))
      decreases Size(from), 2, 0
    {
      match (from, to) {
        case (Array(x), Array(y)) =>
          CreateElementPatches(path, x, y, cs);
        case (Object(x), Object(y)) =>
          SortedSize(x, cs);
          CreateMemberPatches(path, Sort(x, cs), Sort(y, cs), cs);
        case (_, _) =>
          if from != to {
            WrittenOne(path, Replaced([], to));
            assert path + Render([]) == path;
            ComposePatch("replace", path, None, Some(to));
          }
      }
    }

    /** The array case. */
    method CreateElementPatches(path: string, x: seq<Json>, y: seq<Json>, cs: bool)
      modifies this
      ensures list == old(list) + AllWritten(path, ElementChanges(x, y, 0, cs))
      decreases ItemsSize(x), 3, 0
    {
      var index := 0;
      while index < |x| && index < |y|
        invariant index <= |x| && index <= |y|
        invariant list + AllWritten(path, ElementChanges(x, y, index, cs)) ==
                  old(list) + AllWritten(path, ElementChanges(x, y, 0, cs))
      {
        ghost var before := list;
        ItemSize(x, x[index]);
        CreatePatches(path + "/" + Decimal(index), x[index], y[index], cs);
        NextElement(path, x, y, index, cs, before);
        index := index + 1;
      }
      CreateLeftovers(path, x, y, index);
    }

    /** The elements only one of the arrays has. */
    method CreateLeftovers(path: string, x: seq<Json>, y: seq<Json>, index: nat)
      modifies this
      ensures list == old(list) + AllWritten(path, Dropped(index, |x| - index) + Appended(y, index))
    {
      var i := index;
      while i < |x|
        invariant list + AllWritten(path, Dropped(index, |x| - i) + Appended(y, index)) ==
                  old(list) + AllWritten(path, Dropped(index, |x| - index) + Appended(y, index))
      {
        PlainDecimal(index);
        Regroup(path, list, Removed([Decimal(index)]), Dropped(index, |x| - i - 1), Appended(y, index));
        ComposeRemove(path, Decimal(index));
        i := i + 1;
      }
      assert Dropped(index, |x| - i) + Appended(y, index) == Appended(y, index);
      i := index;
      while i < |y|
        invariant list + AllWritten(path, Appended(y, i)) ==
                  old(list) + AllWritten(path, Dropped(index, |x| - index) + Appended(y, index))
      {
        Regroup(path, list, Added(["-"], y[i]), [], Appended(y, i + 1));
        assert [Added(["-"], y[i])] + [] == [Added(["-"], y[i])] && [] + Appended(y, i + 1) == Appended(y, i + 1);
        ComposeAdd(path, "-", y[i]);
        i := i + 1;
      }
    }

    /** The object case: both member lists are in name order. */
    method CreateMemberPatches(path: string, s: seq<Member<Json>>, t: seq<Member<Json>>, cs: bool)
      modifies this
      ensures list == old(list) + AllWritten(path, MemberChanges(s, t, cs))
      decreases MembersSize(s), 3, 0
    {
      var fromChild, toChild := s, t;
      while fromChild != [] || toChild != []
        invariant MembersSize(fromChild) <= MembersSize(s)
        invariant list + AllWritten(path, MemberChanges(fromChild, toChild, cs)) ==
                  old(list) + AllWritten(path, MemberChanges(s, t, cs))
        decreases |fromChild| + |toChild|
      {
        var diff: int;
        if fromChild == [] {
          diff := 1;
        } else if toChild == [] {
          diff := -1;
        } else {
          diff := CompareStrings(fromChild[0].key, toChild[0].key, cs);
        }
        ghost var before := list;
        if diff == 0 {
          var token := EncodeStringAsPointer(fromChild[0].key);
          CreatePatches(path + "/" + token, fromChild[0].value, toChild[0].value, cs);
          NextPair(path, fromChild, toChild, cs, before);
          fromChild, toChild := fromChild[1..], toChild[1..];
        } else if diff < 0 {
          ComposeRemove(path, fromChild[0].key);
          NextOne(path, before, Removed([fromChild[0].key]), MemberChanges(fromChild[1..], toChild, cs));
          fromChild := fromChild[1..];
        } else {
          ComposeAdd(path, toChild[0].key, toChild[0].value);
          NextOne(path, before, Added([toChild[0].key], toChild[0].value), MemberChanges(fromChild, toChild[1..], cs));
          toChild := toChild[1..];
        }
      }
    }
  }

  lemma NextOne(path: string, list: seq<Json>, c: Change, rest: seq<Change>)
    ensures list + AllWritten(path, [c]) + AllWritten(path, rest) == list + AllWritten(path, [c] + rest)
  {
    WrittenJoin(path, [c], rest);
  }

  lemma Regroup(path: string, list: seq<Json>, c: Change, a: seq<Change>, b: seq<Change>)
    ensures list + AllWritten(path, [c]) + AllWritten(path, a + b) == list + AllWritten(path, ([c] + a) + b)
  {
    assert ([c] + a) + b == [c] + (a + b);
    NextOne(path, list, c, a + b);
  }

  lemma NextElement(path: string, x: seq<Json>, y: seq<Json>, i: nat, cs: bool, list: seq<Json>)
    requires i < |x| && i < |y|
    ensures list + AllWritten(path + "/" + Decimal(i), Changes(x[i], y[i], cs)) + AllWritten(path, ElementChanges(x, y, i + 1, cs))
         == list + AllWritten(path, ElementChanges(x, y, i, cs))
  {
    PlainDecimal(i);
    var below := Changes(x[i], y[i], cs);
    WrittenBelow(path, Decimal(i), below);
    WrittenJoin(path, AllBelow(Decimal(i), below), ElementChanges(x, y, i + 1, cs));
  }

  lemma NextPair(path: string, s: seq<Member<Json>>, t: seq<Member<Json>>, cs: bool, list: seq<Json>)
    requires s != [] && t != [] && !Before(s[0], t[0], cs) && !Before(t[0], s[0], cs)
    ensures list + AllWritten(path + "/" + Encode(s[0].key), Changes(s[0].value, t[0].value, cs))
              + AllWritten(path, MemberChanges(s[1..], t[1..], cs))
         == list + AllWritten(path, MemberChanges(s, t, cs))
  {
    var below := Changes(s[0].value, t[0].value, cs);
    WrittenBelow(path, s[0].key, below);
    WrittenJoin(path, AllBelow(s[0].key, below), MemberChanges(s[1..], t[1..], cs));
  }

  /** cJSONUtils_GeneratePatches and its case-sensitive twin. */
  method GeneratePatches(from: Json, to: Json, cs: bool) returns (patches: Json)
    ensures patches == Array(AllWritten("", Changes(from, to, cs)))
  {
    var p := new PatchList();
    p.CreatePatches("", from, to, cs);
    assert [] + p.list == p.list;
    return Array(p.list);
  }
}
