/** Applying JSON patches to a tree with notes: which additions arrive, and which are lost because a "test" sorted the object. */
module JsonPatchNotes {
  import opened CStrings
  import opened JsonTrees
  import opened JsonPointer
  import opened PointerDecode
  import opened MergeSort
  import opened JsonCompare
  import opened JsonPatchApply
  import opened JsonNotes

  datatype Taken = Taken(item: Noted, rest: Noted) | NothingThere

  /** The status and the document; or what the code does depends on an item that is gone. */
  datatype Outcome = Outcome(status: int, doc: Noted) | Unknown

  /** The second half of detach_path. */
  function DetachChildNoted(doc: Noted, parent: Position, child: string): Taken
    requires Proper(doc) && IsNode(Erase(doc), parent)
  {
    match NotedAt(doc, parent)
    case Items(items) =>
      var i := IndexToken(Segment(child));
      if i.Some? && i.value < |items|
      then Taken(items[i.value], PutNoted(doc, parent, Items(RemoveAt(items, i.value))))
      else NothingThere
    case Members(members, tail) =>
      var i := KeyIndex(EraseMembers(members), child, false);
      if i < |members|
      then Taken(members[i].value, PutNoted(doc, parent, WithoutMember(members, tail, i)))
      else NothingThere
    case Leaf(_) => NothingThere
  }

  /** detach_path. */
  function DetachNoted(doc: Noted, path: string, caseSensitive: bool): Taken
    requires Proper(doc)
  {
    var slash := LastSlash(path);
    if slash == None then NothingThere
    else
      var parent := Locate(Erase(doc), path[..slash.value], caseSensitive);
      if parent == None then NothingThere
      else DetachChildNoted(doc, parent.value, DecodeInPlace(path[slash.value + 1..]))
  }

  /** An object without the member of that name, if there is one. */
  function WithoutName(members: seq<Member<Noted>>, tail: Tail, name: string, caseSensitive: bool): (r: Noted)
    requires tail.At? ==> tail.i < |members|
    ensures r.Members? && (r.tail.At? ==> r.tail.i < |r.members|)
  {
    var i := KeyIndex(EraseMembers(members), name, caseSensitive);
    if i < |members| then WithoutMember(members, tail, i) else Members(members, tail)
  }

  /** The object branch at the end of apply_patch: delete the member of that name, then add the new one. */
  function SetNotedMember(members: seq<Member<Noted>>, tail: Tail, name: string, value: Noted, caseSensitive: bool): Grown
    requires tail.At? ==> tail.i < |members|
  {
    var rest := WithoutName(members, tail, name, caseSensitive);
    WithMember(rest.members, rest.tail, Member(name, value))
  }

  function AddChildNoted(doc: Noted, parent: Position, child: string, value: Noted, caseSensitive: bool): Outcome
    requires Proper(doc) && IsNode(Erase(doc), parent)
  {
    EraseAt(doc, parent);
    match NotedAt(doc, parent)
    case Items(items) =>
      var r := AddElement(items, child, value);
      if r.0 == 0 then Outcome(0, PutNoted(doc, parent, Items(r.1))) else Outcome(r.0, doc)
    case Members(members, tail) =>
      var r := SetNotedMember(members, tail, child, value, caseSensitive);
      if r.Grown? then Outcome(0, PutNoted(doc, parent, r.node)) else Unknown
    case Leaf(_) => Outcome(9, doc)
  }

  function AddNoted(doc: Noted, path: string, value: Noted, caseSensitive: bool): Outcome
    requires Proper(doc)
  {
    var slash := LastSlash(path);
    if slash == None then Outcome(9, doc)
    else
      var parent := Locate(Erase(doc), path[..slash.value], caseSensitive);
      if parent == None then Outcome(9, doc)
      else AddChildNoted(doc, parent.value, DecodeInPlace(path[slash.value + 1..]), value, caseSensitive)
  }

  /** What apply_patch has in hand when it comes to adding; or it is over before. */
  datatype Prepared = InHand(doc: Noted, value: Noted) | Over(status: int, doc: Noted)

  function FetchNoted(doc: Noted, patch: Json, opcode: Opcode, caseSensitive: bool): Prepared
    requires Proper(doc)
  {
    match ObjectItem(patch, "from", caseSensitive)
    case None => Over(4, doc)
    case Some(String(from)) =>
      if opcode == MOVE then
        match DetachNoted(doc, from, caseSensitive)
        case NothingThere => Over(5, doc)
        case Taken(item, rest) => InHand(rest, item)
      else
        var pos := Locate(Erase(doc), from, caseSensitive);
        if pos == None then Over(5, doc) else InHand(doc, Fresh(NodeAt(Erase(doc), pos.value)))
    case Some(_) => Over(5, doc)
  }

  /** Everything behind the special case for the root, up to adding. Values are duplicated, and so well kept. */
  function Prepare(doc: Noted, patch: Json, path: string, opcode: Opcode, caseSensitive: bool): Prepared
    requires Proper(doc)
  {
    if opcode == REMOVE || opcode == REPLACE then
      match DetachNoted(doc, path, caseSensitive)
      case NothingThere => Over(13, doc)
      case Taken(_, rest) =>
        if opcode == REMOVE then Over(0, rest)
        else
          var value := ObjectItem(patch, "value", caseSensitive);
          if value == None then Over(7, rest) else InHand(rest, Fresh(value.value))
    else if opcode == MOVE || opcode == COPY then FetchNoted(doc, patch, opcode, caseSensitive)
    else
      var value := ObjectItem(patch, "value", caseSensitive);
      if value == None then Over(7, doc) else InHand(doc, Fresh(value.value))
  }

  function TestNoted(doc: Noted, path: string, value: Option<Json>, caseSensitive: bool): Outcome
    requires Proper(doc)
  {
    var pos := Locate(Erase(doc), path, caseSensitive);
    if pos == None || value == None then Outcome(1, doc)
    else
      EraseAt(doc, pos.value);
      var node := NotedAt(doc, pos.value);
      Outcome(if JsonEqual(Erase(node), value.value, caseSensitive) then 0 else 1,
              PutNoted(doc, pos.value, LeftNoted(node, value.value, caseSensitive)))
  }

  /** What apply_patch does with this patch: it comes to preparing an addition, or is done otherwise. */
  datatype Plan = Adds(path: string, opcode: Opcode) | Tests(path: string) | Ends(status: int, doc: Option<Json>)

  function PlanOf(patch: Json, caseSensitive: bool): Plan {
    match ObjectItem(patch, "path", caseSensitive)
    case Some(String(path)) =>
      var opcode := DecodePatchOperation(patch, caseSensitive);
      if opcode == INVALID then Ends(3, None)
      else if opcode == TEST then Tests(path)
      else if path == "" && opcode == REMOVE then Ends(0, Some(Invalid))
      else if path == "" && (opcode == REPLACE || opcode == ADD) then
        var value := ObjectItem(patch, "value", caseSensitive);
        if value == None then Ends(7, None) else Ends(0, value)
      else Adds(path, opcode)
    case _ => Ends(2, None)
  }

  /** apply_patch. */
  function ApplyNoted(doc: Noted, patch: Json, caseSensitive: bool): Outcome
    requires Proper(doc)
  {
    match PlanOf(patch, caseSensitive)
    case Tests(path) => TestNoted(doc, path, ObjectItem(patch, "value", caseSensitive), caseSensitive)
    case Ends(status, replacement) => Outcome(status, if replacement == None then doc else Fresh(replacement.value))
    case Adds(path, opcode) =>
      PrepareErased(doc, patch, path, opcode, caseSensitive);
      match Prepare(doc, patch, path, opcode, caseSensitive)
      case Over(status, after) => Outcome(status, after)
      case InHand(rest, value) => AddNoted(rest, path, value, caseSensitive)
  }

  // ---------- the tree without its notes ----------

  lemma EraseRemove(members: seq<Member<Noted>>, i: nat)
    requires i < |members|
    ensures EraseMembers(RemoveAt(members, i)) == RemoveAt(EraseMembers(members), i)
  {
  }

  lemma WithoutIsProper(members: seq<Member<Noted>>, tail: Tail, i: nat)
    requires Proper(Members(members, tail)) && i < |members|
    ensures Proper(WithoutMember(members, tail, i)) && Proper(members[i].value)
    ensures WellKept(Members(members, tail)) ==> WellKept(WithoutMember(members, tail, i)) && WellKept(members[i].value)
  {
    assert members[i] in members;
  }

  lemma DetachChildErased(doc: Noted, parent: Position, child: string)
    requires Proper(doc) && IsNode(Erase(doc), parent)
    ensures match DetachChildNoted(doc, parent, child)
      case NothingThere => DetachChild(Erase(doc), parent, child) == Nothing
      case Taken(item, rest) =>
        && DetachChild(Erase(doc), parent, child) == Detached(Erase(item), Erase(rest))
        && Proper(item) && Proper(rest) && (WellKept(doc) ==> WellKept(item) && WellKept(rest))
  {
    EraseAt(doc, parent);
    match NotedAt(doc, parent)
    case Items(items) =>
      var i := IndexToken(Segment(child));
      if i.Some? && i.value < |items| {
        assert EraseItems(RemoveAt(items, i.value)) == RemoveAt(EraseItems(items), i.value);
        assert items[i.value] in items;
        ErasePut(doc, parent, Items(RemoveAt(items, i.value)));
      }
    case Members(members, tail) =>
      var i := KeyIndex(EraseMembers(members), child, false);
      if i < |members| {
        EraseRemove(members, i);
        WithoutIsProper(members, tail, i);
        ErasePut(doc, parent, WithoutMember(members, tail, i));
      }
    case Leaf(_) =>
  }

  lemma DetachErased(doc: Noted, path: string, caseSensitive: bool)
    requires Proper(doc)
    ensures match DetachNoted(doc, path, caseSensitive)
      case NothingThere => DetachPath(Erase(doc), path, caseSensitive) == Nothing
      case Taken(item, rest) =>
        && DetachPath(Erase(doc), path, caseSensitive) == Detached(Erase(item), Erase(rest))
        && Proper(item) && Proper(rest) && (WellKept(doc) ==> WellKept(item) && WellKept(rest))
  {
    var slash := LastSlash(path);
    if slash.Some? {
      var parent := Locate(Erase(doc), path[..slash.value], caseSensitive);
      if parent.Some? {
        DetachChildErased(doc, parent.value, DecodeInPlace(path[slash.value + 1..]));
      }
    }
  }

  predicate PreparedProper(p: Prepared) {
    Proper(p.doc) && (p.InHand? ==> Proper(p.value))
  }

  predicate PreparedWell(p: Prepared) {
    WellKept(p.doc) && (p.InHand? ==> WellKept(p.value))
  }

  /** The code up to adding, on the tree without notes. */
  lemma PrepareErased(doc: Noted, patch: Json, path: string, opcode: Opcode, caseSensitive: bool)
    requires Proper(doc)
    ensures var p := Prepare(doc, patch, path, opcode, caseSensitive);
      && PreparedProper(p) && (WellKept(doc) ==> PreparedWell(p))
      && ApplyBelowRoot(Erase(doc), patch, path, opcode, caseSensitive) ==
         if p.Over? then Applied(p.status, Erase(p.doc)) else AddAt(Erase(p.doc), path, Erase(p.value), caseSensitive)
  {
    if opcode == REMOVE || opcode == REPLACE {
      DetachErased(doc, path, caseSensitive);
    } else if opcode == MOVE {
      var from := ObjectItem(patch, "from", caseSensitive);
      if from.Some? && from.value.String? {
        DetachErased(doc, from.value.s, caseSensitive);
      }
    }
  }

  // ---------- which additions arrive ----------

  /** With the member of that name gone, the note of the object names its last member: the guard child->prev of
      add_item_to_array holds, and for the right item. */
  predicate ReceivesMember(members: seq<Member<Noted>>, tail: Tail, name: string, caseSensitive: bool)
    requires tail.At? ==> tail.i < |members|
  {
    var rest := WithoutName(members, tail, name, caseSensitive);
    Last(rest.tail, |rest.members|)
  }

  /** The object that the value is added to, if it is an object, takes it at its end. */
  predicate Receives(doc: Noted, path: string, caseSensitive: bool)
    requires Proper(doc)
  {
    var slash := LastSlash(path);
    slash.Some? ==>
      var parent := Locate(Erase(doc), path[..slash.value], caseSensitive);
      parent.Some? ==>
        (EraseAt(doc, parent.value);
         match NotedAt(doc, parent.value)
         case Members(members, tail) => ReceivesMember(members, tail, DecodeInPlace(path[slash.value + 1..]), caseSensitive)
         case _ => true)
  }

  lemma WithoutNameErased(members: seq<Member<Noted>>, tail: Tail, name: string, value: Noted, caseSensitive: bool)
    requires Proper(Members(members, tail))
    ensures var rest := WithoutName(members, tail, name, caseSensitive);
      && EraseMembers(rest.members) + [Member(name, Erase(value))] == SetMember(EraseMembers(members), name, Erase(value), caseSensitive)
      && Proper(rest) && (WellKept(Members(members, tail)) ==> WellKept(rest))
  {
    var i := KeyIndex(EraseMembers(members), name, caseSensitive);
    if i < |members| {
      EraseRemove(members, i);
      WithoutIsProper(members, tail, i);
    }
  }

  lemma WithMemberProper(members: seq<Member<Noted>>, tail: Tail, m: Member<Noted>)
    requires Proper(Members(members, tail)) && Proper(m.value)
    ensures var r := WithMember(members, tail, m);
      && (r.Grown? ==> Proper(r.node))
      && (WellKept(Members(members, tail)) && WellKept(m.value) ==> r.Grown? && WellKept(r.node))
  {
    var r := WithMember(members, tail, m);
    if r.Grown? {
      assert forall x :: x in r.node.members ==> x == m || x in members;
    }
  }

  /** Setting a member, on the tree without notes: the code does what it is meant to exactly if the object receives it. */
  lemma SetNotedErased(members: seq<Member<Noted>>, tail: Tail, name: string, value: Noted, caseSensitive: bool)
    requires Proper(Members(members, tail)) && Proper(value)
    ensures var r := SetNotedMember(members, tail, name, value, caseSensitive);
      && (r.Grown? ==> Proper(r.node))
      && ((r.Grown? && Erase(r.node) == Object(SetMember(EraseMembers(members), name, Erase(value), caseSensitive))) <==>
            ReceivesMember(members, tail, name, caseSensitive))
      && (WellKept(Members(members, tail)) && WellKept(value) ==> r.Grown? && WellKept(r.node))
  {
    var rest, m := WithoutName(members, tail, name, caseSensitive), Member(name, value);
    WithoutNameErased(members, tail, name, value, caseSensitive);
    WithMemberProper(rest.members, rest.tail, m);
    ArrivesIffLast(rest.members, rest.tail, m);
  }

  lemma AddElementErased(items: seq<Noted>, child: string, value: Noted)
    requires Proper(Items(items)) && Proper(value)
    ensures var r, s := AddElement(items, child, value), AddElement(EraseItems(items), child, Erase(value));
      && r.0 == s.0 && EraseItems(r.1) == s.1 && Proper(Items(r.1)) && (WellKept(Items(items)) && WellKept(value) ==> WellKept(Items(r.1)))
  {
    var r := AddElement(items, child, value);
    assert forall x :: x in r.1 ==> x == value || x in items;
    if child == "-" {
      assert EraseItems(items + [value]) == EraseItems(items) + [Erase(value)];
    } else if r.0 == 0 {
      var i := IndexToken(Segment(child)).value;
      assert EraseItems(items[..i] + [value] + items[i..]) == EraseItems(items)[..i] + [Erase(value)] + EraseItems(items)[i..];
    }
  }

  lemma {:induction false} PutInjective(j: Json, pos: Position, a: Json, b: Json)
    requires IsNode(j, pos)
    ensures Put(j, pos, a) == Put(j, pos, b) <==> a == b
    decreases |pos|
  {
    if pos != [] {
      var child := Children(j)[pos[0]];
      PutInjective(child, pos[1..], a, b);
      var x, y := Put(child, pos[1..], a), Put(child, pos[1..], b);
      assert Children(SetChild(j, pos[0], x))[pos[0]] == x && Children(SetChild(j, pos[0], y))[pos[0]] == y;
    }
  }

  lemma AddChildErased(doc: Noted, parent: Position, child: string, value: Noted, caseSensitive: bool)
    requires Proper(doc) && Proper(value) && IsNode(Erase(doc), parent)
    ensures var r, s := AddChildNoted(doc, parent, child, value, caseSensitive), AddChild(Erase(doc), parent, child, Erase(value), caseSensitive);
      && (r.Outcome? ==> r.status == s.status && Proper(r.doc))
      && (EraseAt(doc, parent);
          var node := NotedAt(doc, parent);
          (r.Outcome? && Erase(r.doc) == s.doc) <==> (node.Members? ==> ReceivesMember(node.members, node.tail, child, caseSensitive)))
      && (WellKept(doc) && WellKept(value) ==> r.Outcome? && WellKept(r.doc))
  {
    EraseAt(doc, parent);
    match NotedAt(doc, parent)
    case Items(items) =>
      var r := AddElement(items, child, value);
      AddElementErased(items, child, value);
      ErasePut(doc, parent, Items(r.1));
    case Members(members, tail) =>
      var r := SetNotedMember(members, tail, child, value, caseSensitive);
      SetNotedErased(members, tail, child, value, caseSensitive);
      if r.Grown? {
        ErasePut(doc, parent, r.node);
        PutInjective(Erase(doc), parent, Erase(r.node), Object(SetMember(EraseMembers(members), child, Erase(value), caseSensitive)));
      }
    case Leaf(_) =>
  }

  lemma AddErased(doc: Noted, path: string, value: Noted, caseSensitive: bool)
    requires Proper(doc) && Proper(value)
    ensures var r, s := AddNoted(doc, path, value, caseSensitive), AddAt(Erase(doc), path, Erase(value), caseSensitive);
      && (r.Outcome? ==> r.status == s.status && Proper(r.doc))
      && ((r.Outcome? && Erase(r.doc) == s.doc) <==> Receives(doc, path, caseSensitive))
      && (WellKept(doc) && WellKept(value) ==> r.Outcome? && WellKept(r.doc))
  {
    var slash := LastSlash(path);
    if slash.Some? {
      var parent := Locate(Erase(doc), path[..slash.value], caseSensitive);
      if parent.Some? {
        AddChildErased(doc, parent.value, DecodeInPlace(path[slash.value + 1..]), value, caseSensitive);
      }
    }
  }

  // ---------- apply_patch ----------

  /** If the patch comes to adding something, the object it is added to takes it at its end. */
  predicate Arrives(doc: Noted, patch: Json, caseSensitive: bool)
    requires Proper(doc)
  {
    var plan := PlanOf(patch, caseSensitive);
    plan.Adds? ==>
      (PrepareErased(doc, patch, plan.path, plan.opcode, caseSensitive);
       var p := Prepare(doc, patch, plan.path, plan.opcode, caseSensitive);
       p.InHand? ==> Receives(p.doc, plan.path, caseSensitive))
  }

  lemma TestErased(doc: Noted, path: string, value: Option<Json>, caseSensitive: bool)
    requires Proper(doc)
    ensures var r, s := TestNoted(doc, path, value, caseSensitive), TestPatch(Erase(doc), path, value, caseSensitive);
      r.Outcome? && r.status == s.status && Erase(r.doc) == s.doc && Proper(r.doc)
  {
    var pos := Locate(Erase(doc), path, caseSensitive);
    if pos.Some? && value.Some? {
      EraseAt(doc, pos.value);
      var node := NotedAt(doc, pos.value);
      EraseLeft(node, value.value, caseSensitive);
      ErasePut(doc, pos.value, LeftNoted(node, value.value, caseSensitive));
    }
  }

  /** apply_patch without notes goes by the same plan. */
  lemma Planned(doc: Json, patch: Json, caseSensitive: bool)
    ensures ApplyPatch(doc, patch, caseSensitive) ==
      match PlanOf(patch, caseSensitive)
      case Tests(path) => TestPatch(doc, path, ObjectItem(patch, "value", caseSensitive), caseSensitive)
      case Ends(status, replacement) => Applied(status, if replacement == None then doc else replacement.value)
      case Adds(path, opcode) => ApplyBelowRoot(doc, patch, path, opcode, caseSensitive)
  {
  }

  /** apply_patch with notes returns the status it returns without; and it leaves the same tree exactly if what is added
      arrives. */
  lemma ApplyErased(doc: Noted, patch: Json, caseSensitive: bool)
    requires Proper(doc)
    ensures var r, s := ApplyNoted(doc, patch, caseSensitive), ApplyPatch(Erase(doc), patch, caseSensitive);
      && (r.Outcome? ==> r.status == s.status && Proper(r.doc))
      && ((r.Outcome? && Erase(r.doc) == s.doc) <==> Arrives(doc, patch, caseSensitive))
  {
    Planned(Erase(doc), patch, caseSensitive);
    match PlanOf(patch, caseSensitive)
    case Tests(path) => TestErased(doc, path, ObjectItem(patch, "value", caseSensitive), caseSensitive);
    case Ends(_, _) =>
    case Adds(path, opcode) => AddsErased(doc, patch, path, opcode, caseSensitive);
  }

  lemma AddsErased(doc: Noted, patch: Json, path: string, opcode: Opcode, caseSensitive: bool)
    requires Proper(doc)
    ensures PreparedProper(Prepare(doc, patch, path, opcode, caseSensitive))
    ensures var p := Prepare(doc, patch, path, opcode, caseSensitive);
      var r := if p.Over? then Outcome(p.status, p.doc) else AddNoted(p.doc, path, p.value, caseSensitive);
      var s := ApplyBelowRoot(Erase(doc), patch, path, opcode, caseSensitive);
      && (r.Outcome? ==> r.status == s.status && Proper(r.doc))
      && ((r.Outcome? && Erase(r.doc) == s.doc) <==> (p.InHand? ==> Receives(p.doc, path, caseSensitive)))
  {
    PrepareErased(doc, patch, path, opcode, caseSensitive);
    var p := Prepare(doc, patch, path, opcode, caseSensitive);
    if p.InHand? {
      AddErased(p.doc, path, p.value, caseSensitive);
    }
  }

  /** A "test" of this patch comes across objects only whose first and last member sorting leaves in place. */
  predicate Gentle(doc: Json, patch: Json, caseSensitive: bool) {
    var plan := PlanOf(patch, caseSensitive);
    plan.Tests? ==>
      var pos := Locate(doc, plan.path, caseSensitive);
      pos.Some? ==> EndsKept(NodeAt(doc, pos.value), caseSensitive)
  }

  /** Then a well-kept document stays one, and nothing is lost. */
  lemma GentleApply(doc: Noted, patch: Json, caseSensitive: bool)
    requires Proper(doc) && WellKept(doc) && Gentle(Erase(doc), patch, caseSensitive)
    ensures var r, s := ApplyNoted(doc, patch, caseSensitive), ApplyPatch(Erase(doc), patch, caseSensitive);
      r.Outcome? && r.status == s.status && Erase(r.doc) == s.doc && Proper(r.doc) && WellKept(r.doc)
  {
    ApplyErased(doc, patch, caseSensitive);
    match PlanOf(patch, caseSensitive)
    case Tests(path) => GentleTest(doc, path, ObjectItem(patch, "value", caseSensitive), caseSensitive);
    case Ends(_, _) =>
    case Adds(path, opcode) =>
      PrepareErased(doc, patch, path, opcode, caseSensitive);
      var p := Prepare(doc, patch, path, opcode, caseSensitive);
      if p.InHand? {
        AddErased(p.doc, path, p.value, caseSensitive);
        WellReceives(p.doc, path, caseSensitive);
      }
  }

  lemma GentleTest(doc: Noted, path: string, value: Option<Json>, caseSensitive: bool)
    requires Proper(doc) && WellKept(doc)
    requires var pos := Locate(Erase(doc), path, caseSensitive); pos.Some? ==> EndsKept(NodeAt(Erase(doc), pos.value), caseSensitive)
    ensures var r := TestNoted(doc, path, value, caseSensitive); r.Outcome? && WellKept(r.doc)
  {
    var pos := Locate(Erase(doc), path, caseSensitive);
    if pos.Some? && value.Some? {
      EraseAt(doc, pos.value);
      var node := NotedAt(doc, pos.value);
      EraseLeft(node, value.value, caseSensitive);
      LeftWell(node, value.value, caseSensitive);
      ErasePut(doc, pos.value, LeftNoted(node, value.value, caseSensitive));
    }
  }

  lemma WellReceives(doc: Noted, path: string, caseSensitive: bool)
    requires Proper(doc) && WellKept(doc)
    ensures Receives(doc, path, caseSensitive)
  {
    var slash := LastSlash(path);
    if slash.Some? {
      var parent := Locate(Erase(doc), path[..slash.value], caseSensitive);
      if parent.Some? {
        EraseAt(doc, parent.value);
        var node := NotedAt(doc, parent.value);
        if node.Members? {
          WithoutNameErased(node.members, node.tail, DecodeInPlace(path[slash.value + 1..]), Leaf(Null), caseSensitive);
        }
      }
    }
  }

  // ---------- ApplyPatches ----------

  /** The patches in turn; the first that fails ends it. */
  function ApplyAllNoted(doc: Noted, patches: seq<Json>, caseSensitive: bool): Outcome
    requires Proper(doc)
    decreases |patches|
  {
    if patches == [] then Outcome(0, doc)
    else
      ApplyErased(doc, patches[0], caseSensitive);
      var r := ApplyNoted(doc, patches[0], caseSensitive);
      if r.Unknown? || r.status != 0 then r else ApplyAllNoted(r.doc, patches[1..], caseSensitive)
  }

  predicate AllArrive(doc: Noted, patches: seq<Json>, caseSensitive: bool)
    requires Proper(doc)
    decreases |patches|
  {
    patches == [] ||
    (Arrives(doc, patches[0], caseSensitive) &&
     (ApplyErased(doc, patches[0], caseSensitive);
      var r := ApplyNoted(doc, patches[0], caseSensitive);
      r.status == 0 ==> AllArrive(r.doc, patches[1..], caseSensitive)))
  }

  /** As long as everything that is added arrives, ApplyPatches leaves what the patches in turn leave. */
  lemma {:induction false} ArrivedRun(doc: Noted, patches: seq<Json>, caseSensitive: bool)
    requires Proper(doc) && AllArrive(doc, patches, caseSensitive)
    ensures var r, s := ApplyAllNoted(doc, patches, caseSensitive), ApplyAll(Erase(doc), patches, caseSensitive);
      r.Outcome? && r.status == s.status && Erase(r.doc) == s.doc
    decreases |patches|
  {
    if patches != [] {
      ApplyErased(doc, patches[0], caseSensitive);
      var r := ApplyNoted(doc, patches[0], caseSensitive);
      if r.status == 0 {
        ArrivedRun(r.doc, patches[1..], caseSensitive);
      }
    }
  }

  predicate AllGentle(doc: Json, patches: seq<Json>, caseSensitive: bool)
    decreases |patches|
  {
    patches == [] ||
    (Gentle(doc, patches[0], caseSensitive) &&
     (var r := ApplyPatch(doc, patches[0], caseSensitive);
      r.status == 0 ==> AllGentle(r.doc, patches[1..], caseSensitive)))
  }

  /** The patches leave what they leave on the tree without notes. */
  predicate SameRun(doc: Noted, patches: seq<Json>, caseSensitive: bool)
    requires Proper(doc)
  {
    var r, s := ApplyAllNoted(doc, patches, caseSensitive), ApplyAll(Erase(doc), patches, caseSensitive);
    r.Outcome? && r.status == s.status && Erase(r.doc) == s.doc
  }

  lemma OneRun(doc: Noted, patch: Json, caseSensitive: bool)
    requires Proper(doc)
    ensures ApplyAllNoted(doc, [patch], caseSensitive) == ApplyNoted(doc, patch, caseSensitive)
    ensures ApplyAll(Erase(doc), [patch], caseSensitive) == ApplyPatch(Erase(doc), patch, caseSensitive)
  {
    var one := [patch];
    ApplyErased(doc, patch, caseSensitive);
    assert one[0] == patch && one[1..] == [];
  }

  /** At every point of the run, that is. */
  ghost predicate SameAtEveryPoint(doc: Noted, patches: seq<Json>, caseSensitive: bool)
    requires Proper(doc)
  {
    forall k :: 0 <= k <= |patches| ==> SameRun(doc, patches[..k], caseSensitive)
  }

  lemma FirstArrives(doc: Noted, patches: seq<Json>, caseSensitive: bool)
    requires Proper(doc) && patches != [] && SameAtEveryPoint(doc, patches, caseSensitive)
    ensures Arrives(doc, patches[0], caseSensitive)
  {
    assert SameRun(doc, patches[..1], caseSensitive) && patches[..1] == [patches[0]];
    OneRun(doc, patches[0], caseSensitive);
    ApplyErased(doc, patches[0], caseSensitive);
  }

  lemma RunOn(doc: Noted, patches: seq<Json>, r: Outcome, caseSensitive: bool)
    requires Proper(doc) && patches != [] && r == ApplyNoted(doc, patches[0], caseSensitive) && r.Outcome? && Proper(r.doc)
    requires ApplyPatch(Erase(doc), patches[0], caseSensitive) == Applied(r.status, Erase(r.doc))
    ensures SameRun(doc, patches, caseSensitive) <==> (r.status == 0 ==> SameRun(r.doc, patches[1..], caseSensitive))
  {
  }

  lemma PointsOn(doc: Noted, patches: seq<Json>, r: Outcome, caseSensitive: bool)
    requires Proper(doc) && patches != [] && r == ApplyNoted(doc, patches[0], caseSensitive) && r.Outcome? && Proper(r.doc)
    requires ApplyPatch(Erase(doc), patches[0], caseSensitive) == Applied(r.status, Erase(r.doc))
    ensures SameAtEveryPoint(doc, patches, caseSensitive) <==> (r.status == 0 ==> SameAtEveryPoint(r.doc, patches[1..], caseSensitive))
  {
    var rest := patches[1..];
    forall k | 0 <= k < |patches|
      ensures SameRun(doc, patches[..k + 1], caseSensitive) <==> (r.status == 0 ==> SameRun(r.doc, rest[..k], caseSensitive))
    {
      assert patches[..k + 1][0] == patches[0] && patches[..k + 1][1..] == rest[..k];
      RunOn(doc, patches[..k + 1], r, caseSensitive);
    }
    NoneRun(doc, patches[..0], caseSensitive);
    if SameAtEveryPoint(doc, patches, caseSensitive) && r.status == 0 {
      forall k | 0 <= k <= |rest| ensures SameRun(r.doc, rest[..k], caseSensitive) {
        assert SameRun(doc, patches[..k + 1], caseSensitive);
      }
    }
    if r.status == 0 ==> SameAtEveryPoint(r.doc, rest, caseSensitive) {
      forall k | 0 <= k <= |patches| ensures SameRun(doc, patches[..k], caseSensitive) {
        if k > 0 {
          var j := k - 1;
          assert r.status == 0 ==> SameRun(r.doc, rest[..j], caseSensitive);
          assert SameRun(doc, patches[..j + 1], caseSensitive);
        }
      }
    }
  }

  lemma NoneRun(doc: Noted, patches: seq<Json>, caseSensitive: bool)
    requires Proper(doc) && patches == []
    ensures SameRun(doc, patches, caseSensitive)
  {
  }

  /** At every point of the run the document is as it would be without notes exactly if everything that is added arrives. */
  lemma {:induction false} EveryPointIff(doc: Noted, patches: seq<Json>, caseSensitive: bool)
    requires Proper(doc)
    ensures SameAtEveryPoint(doc, patches, caseSensitive) <==> AllArrive(doc, patches, caseSensitive)
    decreases |patches|
  {
    if patches == [] {
      NoneRun(doc, patches[..0], caseSensitive);
    } else {
      if SameAtEveryPoint(doc, patches, caseSensitive) {
        FirstArrives(doc, patches, caseSensitive);
      }
      if Arrives(doc, patches[0], caseSensitive) {
        ApplyErased(doc, patches[0], caseSensitive);
        var r := ApplyNoted(doc, patches[0], caseSensitive);
        PointsOn(doc, patches, r, caseSensitive);
        if r.status == 0 {
          EveryPointIff(r.doc, patches[1..], caseSensitive);
        }
      }
    }
  }

  /** On a document as it was parsed or duplicated everything arrives, if the tests are gentle. */
  lemma {:induction false} GentleRun(doc: Noted, patches: seq<Json>, caseSensitive: bool)
    requires Proper(doc) && WellKept(doc) && AllGentle(Erase(doc), patches, caseSensitive)
    ensures AllArrive(doc, patches, caseSensitive)
    decreases |patches|
  {
    if patches != [] {
      GentleApply(doc, patches[0], caseSensitive);
      ApplyErased(doc, patches[0], caseSensitive);
      var r := ApplyNoted(doc, patches[0], caseSensitive);
      if r.status == 0 {
        GentleRun(r.doc, patches[1..], caseSensitive);
      }
    }
  }

  predicate NoTests(patches: seq<Json>, caseSensitive: bool) {
    forall i :: 0 <= i < |patches| ==> !PlanOf(patches[i], caseSensitive).Tests?
  }

  /** So it does if there is no test at all. */
  lemma {:induction false} NoTestsGentle(doc: Json, patches: seq<Json>, caseSensitive: bool)
    requires NoTests(patches, caseSensitive)
    ensures AllGentle(doc, patches, caseSensitive)
    decreases |patches|
  {
    if patches != [] {
      var r := ApplyPatch(doc, patches[0], caseSensitive);
      if r.status == 0 {
        NoTestsGentle(r.doc, patches[1..], caseSensitive);
      }
    }
  }

  // ---------- a member that is lost ----------

  /** An operation object. */
  function Spelled(op: string, path: string, value: Json): Json {
    Object([Member("op", String(op)), Member("path", String(path)), Member("value", value)])
  }

  lemma SpelledSays(op: string, path: string, value: Json, caseSensitive: bool)
    ensures var patch := Spelled(op, path, value);
      && ObjectItem(patch, "op", caseSensitive) == Some(String(op))
      && ObjectItem(patch, "path", caseSensitive) == Some(String(path))
      && ObjectItem(patch, "value", caseSensitive) == Some(value)
  {
    var m := Spelled(op, path, value).members;
    assert |"op"| == 2 && |"path"| == 4 && |"value"| == 5;
    assert m[1..][0] == m[1] && m[1..][1..][0] == m[2];
    assert m[0] == Member("op", String(op)) && m[1] == Member("path", String(path)) && m[2] == Member("value", value);
    assert KeyIndex(m, "op", caseSensitive) == 0;
    assert KeyIndex(m[1..], "path", caseSensitive) == 0;
    assert KeyIndex(m[1..][1..], "value", caseSensitive) == 0;
    assert KeyIndex(m[1..], "value", caseSensitive) == 1;
  }

  const Before2 := [Member("b", Number(1)), Member("a", Number(2))]
  const After2 := [Member("a", Number(2)), Member("b", Number(1))]

  lemma SortsTwo<T>(x: Member<T>, y: Member<T>, caseSensitive: bool)
    requires x.key == "b" && y.key == "a"
    ensures Sort([x, y], caseSensitive) == [y, x]
  {
    var s := [x, y];
    assert Norm(caseSensitive, "a") == "a" && Norm(caseSensitive, "b") == "b";
    assert !Before(s[0], s[1], caseSensitive) && Before(y, x, caseSensitive);
    assert s[..1] == [x] && s[1..] == [y];
    SortUnfold(s, caseSensitive, 1);
    assert Merge([x], [y], caseSensitive) == [y] + Merge([x], [], caseSensitive);
  }

  lemma OrderTwo<T>(x: Member<T>, y: Member<T>, caseSensitive: bool)
    requires x.key == "b" && y.key == "a"
    ensures Order([x, y], caseSensitive) == [1, 0]
  {
    var first, second: Member<nat> := Member("b", 0), Member("a", 1);
    assert Numbered([x, y]) == [first, second];
    SortsTwo(first, second, caseSensitive);
  }

  /** After the test the object is in order, and its first prev names nothing. */
  lemma TestSortsTwo(caseSensitive: bool)
    ensures TestNoted(Fresh(Object(Before2)), "", Some(Object(Before2)), caseSensitive)
         == Outcome(0, Members([Member("a", Leaf(Number(2))), Member("b", Leaf(Number(1)))], Nowhere))
  {
    var doc := Fresh(Object(Before2));
    var x, y := Member("b", Leaf(Number(1))), Member("a", Leaf(Number(2)));
    assert doc == Members([x, y], At(1));
    OrderTwo(x, y, caseSensitive);
    assert SortedMembers([x, y], At(1), caseSensitive) == Members([y, x], Nowhere);
    SortsTwo(Before2[0], Before2[1], caseSensitive);
    assert Before2 == [Before2[0], Before2[1]] && Sort(Before2, caseSensitive) == After2;
    LeftTwo(caseSensitive);
    JsonEqualObjects(Before2, Before2, caseSensitive);
  }

  lemma LeftTwo(caseSensitive: bool)
    ensures var a := [Member("a", Leaf(Number(2))), Member("b", Leaf(Number(1)))];
      LeftNotedMembers(a, After2, caseSensitive) == a
  {
    var a := [Member("a", Leaf(Number(2))), Member("b", Leaf(Number(1)))];
    assert a[1..] == [a[1]] && After2[1..] == [After2[1]] && a[1..][1..] == [] && After2[1..][1..] == [];
    assert LeftNotedMembers(a[1..], After2[1..], caseSensitive) == a[1..];
  }

  lemma AddsNothing(caseSensitive: bool)
    ensures var a := Members([Member("a", Leaf(Number(2))), Member("b", Leaf(Number(1)))], Nowhere);
      && AddNoted(a, "/c", Fresh(Number(3)), caseSensitive) == Outcome(0, a)
      && AddAt(Erase(a), "/c", Number(3), caseSensitive) == Applied(0, Object(After2 + [Member("c", Number(3))]))
  {
    var a := Members([Member("a", Leaf(Number(2))), Member("b", Leaf(Number(1)))], Nowhere);
    assert "/c"[..1] == "/" && "/c"[1..] == "c" && "/c"[..0] == "";
    assert LastSlash("/") == Some(0) && LastSlash("/c") == Some(0);
    NameC();
    assert EraseMembers(a.members) == After2;
    assert Norm(caseSensitive, "a") == "a" && Norm(caseSensitive, "b") == "b" && Norm(caseSensitive, "c") == "c";
    assert After2[1..] == [After2[1]] && After2[1..][1..] == [];
    assert KeyIndex(After2[1..], "c", caseSensitive) == 1;
    assert KeyIndex(After2, "c", caseSensitive) == 2;
  }

  lemma NameC()
    ensures DecodeInPlace("c") == "c"
  {
    assert "c"[1..] == "";
    EncodePlain("c");
    DecodeUndoesEncodeIff("c");
  }

  const SortedTwo := Members([Member("a", Leaf(Number(2))), Member("b", Leaf(Number(1)))], Nowhere)

  function TestTwo(): Json {
    Spelled("test", "", Object(Before2))
  }

  function AddC(): Json {
    Spelled("add", "/c", Number(3))
  }

  lemma PlansTwo(caseSensitive: bool)
    ensures PlanOf(TestTwo(), caseSensitive) == Tests("") && PlanOf(AddC(), caseSensitive) == Adds("/c", ADD)
    ensures ObjectItem(TestTwo(), "value", caseSensitive) == Some(Object(Before2)) && ObjectItem(AddC(), "value", caseSensitive) == Some(Number(3))
  {
    SpelledSays("test", "", Object(Before2), caseSensitive);
    SpelledSays("add", "/c", Number(3), caseSensitive);
  }

  lemma TestStep(doc: Noted, patch: Json, path: string, value: Json, caseSensitive: bool)
    requires Proper(doc) && PlanOf(patch, caseSensitive) == Tests(path) && ObjectItem(patch, "value", caseSensitive) == Some(value)
    ensures ApplyNoted(doc, patch, caseSensitive) == TestNoted(doc, path, Some(value), caseSensitive)
    ensures ApplyPatch(Erase(doc), patch, caseSensitive) == TestPatch(Erase(doc), path, Some(value), caseSensitive)
  {
    Planned(Erase(doc), patch, caseSensitive);
  }

  lemma AddStep(doc: Noted, patch: Json, path: string, value: Json, caseSensitive: bool)
    requires Proper(doc) && PlanOf(patch, caseSensitive) == Adds(path, ADD) && ObjectItem(patch, "value", caseSensitive) == Some(value)
    ensures ApplyNoted(doc, patch, caseSensitive) == AddNoted(doc, path, Fresh(value), caseSensitive)
    ensures ApplyPatch(Erase(doc), patch, caseSensitive) == AddAt(Erase(doc), path, value, caseSensitive)
  {
    Planned(Erase(doc), patch, caseSensitive);
  }

  lemma TestTwoSteps(caseSensitive: bool)
    ensures ApplyNoted(Fresh(Object(Before2)), TestTwo(), caseSensitive) == Outcome(0, SortedTwo) && Proper(SortedTwo)
    ensures ApplyPatch(Object(Before2), TestTwo(), caseSensitive) == Applied(0, Erase(SortedTwo))
  {
    var doc := Fresh(Object(Before2));
    PlansTwo(caseSensitive);
    TestStep(doc, TestTwo(), "", Object(Before2), caseSensitive);
    TestSortsTwo(caseSensitive);
    TestErased(doc, "", Some(Object(Before2)), caseSensitive);
  }

  lemma AddCSteps(caseSensitive: bool)
    requires Proper(SortedTwo)
    ensures ApplyNoted(SortedTwo, AddC(), caseSensitive) == Outcome(0, SortedTwo)
    ensures ApplyPatch(Erase(SortedTwo), AddC(), caseSensitive) == Applied(0, Object(After2 + [Member("c", Number(3))]))
  {
    PlansTwo(caseSensitive);
    AddStep(SortedTwo, AddC(), "/c", Number(3), caseSensitive);
    AddsNothing(caseSensitive);
  }

  lemma OneNoted(doc: Noted, patch: Json, rest: seq<Json>, mid: Noted, caseSensitive: bool)
    requires Proper(doc) && Proper(mid) && ApplyNoted(doc, patch, caseSensitive) == Outcome(0, mid)
    ensures ApplyAllNoted(doc, [patch] + rest, caseSensitive) == ApplyAllNoted(mid, rest, caseSensitive)
  {
    var patches := [patch] + rest;
    assert patches[1..] == rest && patches[0] == patch && patches != [];
  }

  lemma OnePlain(doc: Json, patch: Json, rest: seq<Json>, mid: Json, caseSensitive: bool)
    requires ApplyPatch(doc, patch, caseSensitive) == Applied(0, mid)
    ensures ApplyAll(doc, [patch] + rest, caseSensitive) == ApplyAll(mid, rest, caseSensitive)
  {
    var patches := [patch] + rest;
    assert patches[1..] == rest && patches[0] == patch && patches != [];
  }

  /** On {"b":1,"a":2}, a test against the document itself and then adding "c" report success, and "c" is not there; without
      the note it would be. */
  lemma TestThenAddLoses(caseSensitive: bool)
    ensures var doc := Object(Before2);
      && ApplyAllNoted(Fresh(doc), [TestTwo()] + [AddC()], caseSensitive) == Outcome(0, SortedTwo)
      && ApplyAll(doc, [TestTwo()] + [AddC()], caseSensitive) == Applied(0, Object(After2 + [Member("c", Number(3))]))
  {
    var doc, last := Object(Before2), Object(After2 + [Member("c", Number(3))]);
    TestTwoSteps(caseSensitive);
    AddCSteps(caseSensitive);
    OneNoted(Fresh(doc), TestTwo(), [AddC()], SortedTwo, caseSensitive);
    OneNoted(SortedTwo, AddC(), [], SortedTwo, caseSensitive);
    OnePlain(doc, TestTwo(), [AddC()], Erase(SortedTwo), caseSensitive);
    OnePlain(Erase(SortedTwo), AddC(), [], last, caseSensitive);
    assert [AddC()] + [] == [AddC()];
  }
}
