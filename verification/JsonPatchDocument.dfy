/** The document that patches are applied to, edited in place by detach_path, apply_patch and ApplyPatches. */
module JsonPatchDocument {
  import opened CStrings
  import opened JsonTrees
  import opened JsonPointer
  import opened PointerDecode
  import opened JsonCompare
  import opened JsonPatchApply
  import opened JsonNotes
  import opened JsonPatchNotes
  import opened JsonPatchGenerate
  import opened JsonPatchChanges
  import opened JsonPatchRoundTrip

  /** strrchr(path, '/'). */
  method FindLastSlash(path: string) returns (slash: Option<nat>)
    ensures slash == LastSlash(path)
  {
    var i := |path|;
    assert path[..i] == path;
    while i > 0
      invariant i <= |path|
      invariant LastSlash(path) == LastSlash(path[..i])
    {
      assert path[..i][..i - 1] == path[..i - 1];
      if path[i - 1] == '/' {
        return Some(i - 1);
      }
      i := i - 1;
    }
    return None;
  }

  /** decode_pointer_inplace on a copy of the text. */
  method Decoded(text: string) returns (r: string)
    ensures r == DecodeInPlace(text)
  {
    var buffer := new char[|text|](i requires 0 <= i < |text| => text[i]);
    assert buffer[..|text|] == text;
    var length := DecodePointerInPlace(buffer, |text|);
    return buffer[..length];
  }

  /** The document; an item that is gone is never followed here, and what the code does when it is stays open. */
  class Document {
    var root: Noted

    constructor (json: Json)
      ensures root == Fresh(json)
    {
      root := Fresh(json);
    }

    /** The node that holds the last token, and the token itself; or nothing. */
    method SplitPointer(path: string, cs: bool) returns (parent: Option<Position>, child: string)
      ensures var slash := LastSlash(path);
        if slash == None then parent == None
        else parent == Locate(Erase(root), path[..slash.value], cs) && child == DecodeInPlace(path[slash.value + 1..])
    {
      var slash := FindLastSlash(path);
      if slash == None {
        return None, "";
      }
      child := Decoded(path[slash.value + 1..]);
      parent := GetItemFromPointer(Erase(root), path[..slash.value], cs);
    }

    /** detach_path. */
    method Detach(path: string, cs: bool) returns (item: Option<Noted>)
      requires Proper(root)
      modifies this
      ensures Proper(root) && (item.Some? ==> Proper(item.value))
      ensures match DetachNoted(old(root), path, cs)
        case NothingThere => item == None && root == old(root)
        case Taken(gone, rest) => item == Some(gone) && root == rest
    {
      DetachErased(root, path, cs);
      var parent, child := SplitPointer(path, cs);
      if parent == None {
        return None;
      }
      match NotedAt(root, parent.value) {
        case Items(items) =>
          var index := DecodeArrayIndexFromPointer(child);
          if index == None || index.value >= |items| {
            return None;
          }
          item := Some(items[index.value]);
          root := PutNoted(root, parent.value, Items(RemoveAt(items, index.value)));
        case Members(members, tail) =>
          var index := GetObjectItem(EraseMembers(members), child, false);
          if index == |members| {
            return None;
          }
          item := Some(members[index].value);
          root := PutNoted(root, parent.value, WithoutMember(members, tail, index));
        case Leaf(_) =>
          return None;
      }
    }

    /** The document and the status are those of the outcome, if it is known. */
    ghost predicate Shows(r: Outcome, status: int)
      reads this
    {
      Proper(root) && (r.Outcome? ==> r == Outcome(status, root))
    }

    /** The last part of apply_patch: add `value` at `path`. */
    method Add(path: string, value: Noted, cs: bool) returns (status: int)
      requires Proper(root) && Proper(value)
      modifies this
      ensures Shows(AddNoted(old(root), path, value, cs), status)
    {
      AddErased(root, path, value, cs);
      var parent, child := SplitPointer(path, cs);
      if parent == None {
        return 9;
      }
      EraseAt(root, parent.value);
      match NotedAt(root, parent.value) {
        case Items(items) =>
          status := AddToArray(parent.value, items, child, value);
        case Members(members, tail) =>
          AddToObject(parent.value, members, tail, child, value, cs);
          return 0;
        case Leaf(_) =>
          return 9;
      }
    }

    method AddToArray(parent: Position, items: seq<Noted>, child: string, value: Noted) returns (status: int)
      requires Proper(root) && IsNode(Erase(root), parent)
      modifies this
      ensures var r := AddElement(items, child, value);
        status == r.0 && root == if r.0 == 0 then PutNoted(old(root), parent, Items(r.1)) else old(root)
    {
      if child == "-" {
        root := PutNoted(root, parent, Items(items + [value]));
        return 0;
      }
      var index := DecodeArrayIndexFromPointer(child);
      if index == None {
        return 11;
      }
      if index.value > |items| {
        return 10;
      }
      root := PutNoted(root, parent, Items(items[..index.value] + [value] + items[index.value..]));
      return 0;
    }

    /** cJSON_DeleteItemFromObject, then cJSON_AddItemToObject. */
    method AddToObject(parent: Position, members: seq<Member<Noted>>, tail: Tail, name: string, value: Noted, cs: bool)
      requires Proper(root) && IsNode(Erase(root), parent) && (tail.At? ==> tail.i < |members|)
      modifies this
      ensures var r := SetNotedMember(members, tail, name, value, cs);
        root == if r.Grown? then PutNoted(old(root), parent, r.node) else old(root)
    {
      var index := GetObjectItem(EraseMembers(members), name, cs);
      var rest := if index < |members| then WithoutMember(members, tail, index) else Members(members, tail);
      var known, grown := Append(rest.members, rest.tail, Member(name, value));
      if known {
        root := PutNoted(root, parent, grown);
      }
    }

    /** add_item_to_array behind the member that the first prev names. */
    static method Append(members: seq<Member<Noted>>, tail: Tail, m: Member<Noted>) returns (known: bool, grown: Noted)
      requires tail.At? ==> tail.i < |members|
      ensures WithMember(members, tail, m) == if known then Grown(grown) else Dangling
    {
      if members == [] {
        return true, Members([m], At(0));
      }
      match tail {
        case Nowhere => return true, Members(members, Nowhere);
        case At(k) => return true, Members(members[..k + 1] + [m], At(k + 1));
        case Gone => return false, Members(members, Gone);
      }
    }

    /** A "test" operation. */
    method TestValue(path: string, value: Option<Json>, cs: bool) returns (status: int)
      requires Proper(root)
      modifies this
      ensures Shows(TestNoted(old(root), path, value, cs), status)
    {
      TestErased(root, path, value, cs);
      var pos := GetItemFromPointer(Erase(root), path, cs);
      if pos == None || value == None {
        return 1;
      }
      EraseAt(root, pos.value);
      var node := NotedAt(root, pos.value);
      var equal, _, _ := CompareJson(Erase(node), value.value, cs);
      root := PutNoted(root, pos.value, LeftNoted(node, value.value, cs));
      return if equal then 0 else 1;
    }

    /** The "value" of a patch, found by name. */
    method Lookup(patch: Json, name: string, cs: bool) returns (item: Option<Json>)
      ensures item == ObjectItem(patch, name, cs)
    {
      if !patch.Object? {
        return None;
      }
      var i := GetObjectItem(patch.members, name, cs);
      return if i < |patch.members| then Some(patch.members[i].value) else None;
    }

    /** apply_patch behind the special case for the root. */
    method ApplyInside(patch: Json, path: string, opcode: Opcode, cs: bool) returns (status: int)
      requires Proper(root)
      modifies this
      ensures PreparedProper(Prepare(old(root), patch, path, opcode, cs))
      ensures var p := Prepare(old(root), patch, path, opcode, cs);
        Shows(if p.Over? then Outcome(p.status, p.doc) else AddNoted(p.doc, path, p.value, cs), status)
    {
      PrepareErased(root, patch, path, opcode, cs);
      if opcode == REMOVE || opcode == REPLACE {
        var gone := Detach(path, cs);
        if gone == None {
          return 13;
        }
        if opcode == REMOVE {
          return 0;
        }
      }
      var value: Noted;
      if opcode == MOVE || opcode == COPY {
        var fetched;
        status, fetched := BringFrom(patch, opcode, cs);
        if fetched == None {
          return;
        }
        value := fetched.value;
      } else {
        var given := Lookup(patch, "value", cs);
        if given == None {
          return 7;
        }
        value := Fresh(given.value);
      }
      status := Add(path, value, cs);
    }

    /** Where a "move" or a "copy" takes its value from. A copy is a duplicate. */
    method BringFrom(patch: Json, opcode: Opcode, cs: bool) returns (status: int, value: Option<Noted>)
      requires Proper(root)
      modifies this
      ensures Proper(root) && (value.Some? ==> Proper(value.value))
      ensures match FetchNoted(old(root), patch, opcode, cs)
        case Over(s, doc) => status == s && value == None && root == doc
        case InHand(doc, v) => value == Some(v) && root == doc
    {
      var from := Lookup(patch, "from", cs);
      if from == None {
        return 4, None;
      }
      if !from.value.String? {
        return 5, None;
      }
      if opcode == MOVE {
        value := Detach(from.value.s, cs);
      } else {
        var pos := GetItemFromPointer(Erase(root), from.value.s, cs);
        value := if pos == None then None else Some(Fresh(NodeAt(Erase(root), pos.value)));
      }
      return if value == None then 5 else 0, value;
    }

    /** apply_patch. */
    method Apply(patch: Json, cs: bool) returns (status: int)
      requires Proper(root)
      modifies this
      ensures Shows(ApplyNoted(old(root), patch, cs), status)
    {
      var path := Lookup(patch, "path", cs);
      if path == None || !path.value.String? {
        return 2;
      }
      var opcode := DecodePatchOperation(patch, cs);
      if opcode == INVALID {
        return 3;
      } else if opcode == TEST {
        var expected := Lookup(patch, "value", cs);
        status := TestValue(path.value.s, expected, cs);
        return;
      }
      if path.value.s == "" {
        if opcode == REMOVE {
          root := Fresh(Invalid);
          return 0;
        }
        if opcode == REPLACE || opcode == ADD {
          var value := Lookup(patch, "value", cs);
          if value == None {
            return 7;
          }
          root := Fresh(value.value);
          return 0;
        }
      }
      status := ApplyInside(patch, path.value.s, opcode, cs);
    }

    /** cJSONUtils_ApplyPatches and its case-sensitive twin: one patch after the other until one fails. As long as everything
        that is added arrives, the outcome is that of the patches in turn. */
    method ApplyPatches(patches: Json, cs: bool) returns (status: int)
      requires Proper(root)
      modifies this
      ensures Shows(if patches.Array? then ApplyAllNoted(old(root), patches.items, cs) else Outcome(1, old(root)), status)
      ensures patches.Array? && AllArrive(old(root), patches.items, cs) ==>
        Applied(status, Erase(root)) == ApplyAll(Erase(old(root)), patches.items, cs)
    {
      if !patches.Array? {
        return 1;
      }
      ghost var goal := ApplyAllNoted(root, patches.items, cs);
      if AllArrive(root, patches.items, cs) {
        ArrivedRun(root, patches.items, cs);
      }
      var current := patches.items;
      while current != []
        invariant Proper(root) && (goal.Outcome? ==> ApplyAllNoted(root, current, cs) == goal)
        decreases |current|
      {
        ghost var before := root;
        status := Apply(current[0], cs);
        if status != 0 {
          return;
        }
        current := current[1..];
      }
      return 0;
    }
  }

  lemma NothingTested(changes: seq<Change>, cs: bool)
    ensures NoTests(AllWritten("", changes), cs)
  {
    forall i | 0 <= i < |changes| ensures !PlanOf(AllWritten("", changes)[i], cs).Tests? {
      WrittenFields(changes[i], cs);
    }
  }

  /** Generated patches hold no test, so everything they add arrives. */
  lemma GeneratedArrive(copy: Json, changes: seq<Change>, cs: bool)
    ensures AllArrive(Fresh(copy), AllWritten("", changes), cs)
  {
    NothingTested(changes, cs);
    NoTestsGentle(copy, AllWritten("", changes), cs);
    GentleRun(Fresh(copy), AllWritten("", changes), cs);
  }

  /** What the library is used for: write down the difference, apply it to a copy, get the other document, exactly when the
      three fit. */
  method Transport(from: Json, to: Json, copy: Json, cs: bool) returns (status: int, result: Json)
    requires Ready(from, cs) && Ready(to, cs) && IsCopy(copy, from, cs)
    ensures status == 0 && Meaning(result, cs) == Meaning(to, cs) <==> Fit(from, to, copy, cs)
  {
    var patches := GeneratePatches(from, to, cs);
    var document := new Document(copy);
    GenerateThenApplyIff(from, to, copy, cs);
    GeneratedArrive(copy, Changes(from, to, cs), cs);
    status := document.ApplyPatches(patches, cs);
    result := Erase(document.root);
  }
}
