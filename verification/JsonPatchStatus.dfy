/** What apply_patch answers, and what it leaves, when an operation cannot be carried out: in terms of what the document means. */
module JsonPatchStatus {
  import opened CStrings
  import opened JsonTrees
  import opened JsonPointer
  import opened JsonPointerLaws
  import opened JsonPatchApply
  import opened Rfc6902
  import opened JsonPatchRefines

  /** The status for a value that cannot be added: 9 without a container, 11 for a token that is no index, 10 for an index
      behind the end. */
  function AddStatus(d: Doc, path: seq<string>, cs: bool): int {
    if path == [] then 0
    else
      var container := DocGet(d, Parent(path), cs);
      if container == None || container.value.Atom? then 9
      else if container.value.Arr? && Last(path) != "-" then IndexStatus(Rfc6901Index(Last(path)), |container.value.elements|)
      else 0
  }

  function IndexStatus(index: Option<int>, length: nat): int {
    if index == None then 11 else if index.value > length then 10 else 0
  }

  /** The status of an operation on a document. */
  function StatusOf(d: Doc, op: Operation, cs: bool): int {
    match op
    case Add(path, _) => AddStatus(d, path, cs)
    case Remove(path) => if DocRemove(d, path, cs) == None then 13 else 0
    case Replace(path, _) => if DocGet(d, path, cs) == None then 13 else 0
    case Move(from, path) =>
      if DocRemove(d, from, cs) == None then 5 else AddStatus(DocRemove(d, from, cs).value, path, cs)
    case Copy(from, path) => if DocGet(d, from, cs) == None then 5 else AddStatus(d, path, cs)
    case Test(path, value) => if DocGet(d, path, cs) == Some(value) then 0 else 1
  }

  /** What a failing operation leaves: the document, but that a "move" has taken its value out already, and lost it. */
  function Leaves(d: Doc, op: Operation, cs: bool): Doc {
    if op.Move? && DocRemove(d, op.from, cs).Some? then DocRemove(d, op.from, cs).value else d
  }

  // ---------- adding ----------

  lemma ElementStatus(items: seq<Json>, token: string, value: Json, cs: bool)
    requires IndexSane(token) && '/' !in token
    ensures AddElement(items, token, value).0 == if token == "-" then 0 else IndexStatus(Rfc6901Index(token), |items|)
  {
    SegmentOf(token, "");
    assert token + "" == token;
    IndexTokenIsRfc(token);
  }

  lemma ChildStatus(doc: Json, path: seq<string>, pos: Position, value: Json, cs: bool)
    requires path != [] && Regular(Meaning(doc, cs), path, cs) && IsNode(doc, pos)
    requires DocGet(Meaning(doc, cs), Parent(path), cs) == Some(Meaning(NodeAt(doc, pos), cs))
    ensures var r := AddChild(doc, pos, Last(path), value, cs);
      r.status == AddStatus(Meaning(doc, cs), path, cs) && (r.status != 0 ==> r.doc == doc)
  {
    match NodeAt(doc, pos)
    case Array(items) => ElementStatus(items, Last(path), value, cs);
    case Object(_) =>
    case _ =>
  }

  /** A value that cannot be added leaves the document alone. */
  lemma AddAtStatus(doc: Json, path: seq<string>, value: Json, cs: bool)
    requires DistinctSiblings(doc, cs) && path != [] && Regular(Meaning(doc, cs), path, cs)
    ensures var r := AddAt(doc, Render(path), value, cs);
      r.status == AddStatus(Meaning(doc, cs), path, cs) && (r.status != 0 ==> r.doc == doc)
  {
    UnrenderPath(doc, path, value, cs);
    LocateIsDocGet(doc, Parent(path), cs);
    var pos := Locate(doc, Render(Parent(path)), cs);
    if pos.Some? {
      ChildStatus(doc, path, pos.value, value, cs);
    }
  }

  // ---------- the operations ----------

  /** The status, and what a failure leaves. */
  predicate Answers(r: Applied, d: Doc, op: Operation, cs: bool) {
    r.status == StatusOf(d, op, cs) && (r.status != 0 ==> Meaning(r.doc, cs) == Leaves(d, op, cs))
  }

  lemma MoveBranch(doc: Json, patch: Json, from: string, path: string, cs: bool)
    requires ObjectItem(patch, "from", cs) == Some(String(from))
    ensures ApplyBelowRoot(doc, patch, path, MOVE, cs) ==
            var gone := DetachPath(doc, from, cs); if gone == Nothing then Applied(5, doc) else AddAt(gone.rest, path, gone.item, cs)
  {
  }

  lemma CopyBranch(doc: Json, patch: Json, from: string, path: string, cs: bool)
    requires ObjectItem(patch, "from", cs) == Some(String(from))
    ensures ApplyBelowRoot(doc, patch, path, COPY, cs) ==
            var pos := Locate(doc, from, cs); if pos == None then Applied(5, doc) else AddAt(doc, path, NodeAt(doc, pos.value), cs)
  {
  }

  lemma MoveAnswers(doc: Json, patch: Json, op: Operation, cs: bool)
    requires op.Move? && DistinctSiblings(doc, cs) && Says(patch, op, cs) && Covered(doc, op, cs)
    ensures Answers(ApplyBelowRoot(doc, patch, Render(op.path), MOVE, cs), Meaning(doc, cs), op, cs)
  {
    MoveBranch(doc, patch, Render(op.from), Render(op.path), cs);
    MovedAnswers(doc, op.from, op.path, cs);
  }

  lemma MovedAnswers(doc: Json, from: seq<string>, path: seq<string>, cs: bool)
    requires DistinctSiblings(doc, cs) && Covered(doc, Move(from, path), cs)
    ensures var gone := DetachPath(doc, Render(from), cs);
      Answers(if gone == Nothing then Applied(5, doc) else AddAt(gone.rest, Render(path), gone.item, cs), Meaning(doc, cs), Move(from, path), cs)
  {
    DetachIsRemove(doc, from, cs);
    var gone := DetachPath(doc, Render(from), cs);
    if gone.Detached? {
      AddAtStatus(gone.rest, path, gone.item, cs);
    }
  }

  lemma CopyAnswers(doc: Json, patch: Json, op: Operation, cs: bool)
    requires op.Copy? && DistinctSiblings(doc, cs) && Says(patch, op, cs) && Covered(doc, op, cs)
    ensures Answers(ApplyBelowRoot(doc, patch, Render(op.path), COPY, cs), Meaning(doc, cs), op, cs)
  {
    CopyBranch(doc, patch, Render(op.from), Render(op.path), cs);
    CopiedAnswers(doc, op.from, op.path, cs);
  }

  lemma CopiedAnswers(doc: Json, from: seq<string>, path: seq<string>, cs: bool)
    requires DistinctSiblings(doc, cs) && Covered(doc, Copy(from, path), cs)
    ensures var pos := Locate(doc, Render(from), cs);
      Answers(if pos == None then Applied(5, doc) else AddAt(doc, Render(path), NodeAt(doc, pos.value), cs), Meaning(doc, cs), Copy(from, path), cs)
  {
    LocateIsDocGet(doc, from, cs);
    var pos := Locate(doc, Render(from), cs);
    if pos.Some? {
      AddAtStatus(doc, path, NodeAt(doc, pos.value), cs);
    }
  }

  lemma ReplaceAnswers(doc: Json, patch: Json, op: Operation, cs: bool)
    requires op.Replace? && op.path != [] && DistinctSiblings(doc, cs) && Says(patch, op, cs) && Covered(doc, op, cs)
    ensures Answers(ApplyBelowRoot(doc, patch, Render(op.path), REPLACE, cs), Meaning(doc, cs), op, cs)
  {
    var value := ObjectItem(patch, "value", cs).value;
    DetachThenAdd(doc, op.path, value, cs);
    ReplaceBranch(doc, patch, Render(op.path), value, cs);
    DetachIsRemove(doc, op.path, cs);
    ReplaceIsRemoveAdd(Meaning(doc, cs), op.path, Meaning(value, cs), cs);
  }

  lemma TestAnswers(doc: Json, patch: Json, op: Operation, cs: bool)
    requires op.Test? && DistinctSiblings(doc, cs) && Says(patch, op, cs) && Covered(doc, op, cs)
    ensures Answers(TestPatch(doc, Render(op.path), ObjectItem(patch, "value", cs), cs), Meaning(doc, cs), op, cs)
  {
    var value := ObjectItem(patch, "value", cs).value;
    TestRefines(doc, value, op.path, cs);
    LocateIsDocGet(doc, op.path, cs);
    var pos := Locate(doc, Render(op.path), cs);
    if pos.Some? {
      var after := TestAt(doc, value, op.path, pos.value, cs);
    }
  }

  lemma BelowRootAnswers(doc: Json, patch: Json, op: Operation, cs: bool)
    requires !op.Test? && op.path != [] && DistinctSiblings(doc, cs) && Says(patch, op, cs) && Covered(doc, op, cs)
    ensures Answers(ApplyBelowRoot(doc, patch, Render(op.path), OpcodeOf(op), cs), Meaning(doc, cs), op, cs)
  {
    match op
    case Move(_, _) => MoveAnswers(doc, patch, op, cs);
    case Copy(_, _) => CopyAnswers(doc, patch, op, cs);
    case Replace(_, _) => ReplaceAnswers(doc, patch, op, cs);
    case Remove(path) => DetachIsRemove(doc, path, cs);
    case Add(path, _) => AddAtStatus(doc, path, ObjectItem(patch, "value", cs).value, cs);
  }

  /** Every operation is answered with the status its failure has, and a failure leaves the meaning of the document alone, except
      that a "move" to a place that does not exist loses the value. */
  lemma ApplyPatchAnswers(doc: Json, patch: Json, op: Operation, cs: bool)
    requires DistinctSiblings(doc, cs) && Says(patch, op, cs) && Covered(doc, op, cs)
    ensures Answers(ApplyPatch(doc, patch, cs), Meaning(doc, cs), op, cs)
    ensures StatusOf(Meaning(doc, cs), op, cs) == 0 <==> Perform(Meaning(doc, cs), op, cs).Some?
  {
    ApplyPatchRefinesRfc6902(doc, patch, op, cs);
    Dispatch(doc, patch, op, cs);
    if op.Test? {
      TestAnswers(doc, patch, op, cs);
    } else if op.path != [] {
      BelowRootAnswers(doc, patch, op, cs);
    } else {
      DecodesWord(patch, op, cs);
    }
  }

  /** A patch that says nothing that RFC 6902 knows is refused with the status of what is wrong with it; the document stays, but
      for a "replace" without a value, which has removed what it was to replace. */
  lemma MalformedAnswers(doc: Json, patch: Json, cs: bool)
    ensures var path, word := ObjectItem(patch, "path", cs), ObjectItem(patch, "op", cs);
      var r := ApplyPatch(doc, patch, cs);
      if !(path.Some? && path.value.String?) then r == Applied(2, doc)
      else if !(word.Some? && word.value.String? && IsOpWord(word.value.s)) then r == Applied(3, doc)
      else
        && (word.value.s == "add" && ObjectItem(patch, "value", cs) == None ==> r == Applied(7, doc))
        && (word.value.s == "test" && ObjectItem(patch, "value", cs) == None ==> r == Applied(1, doc))
        && ((word.value.s == "move" || word.value.s == "copy") && ObjectItem(patch, "from", cs) == None ==> r == Applied(4, doc))
        && (word.value.s == "replace" && ObjectItem(patch, "value", cs) == None ==>
              if path.value.s == "" then r == Applied(7, doc)
              else
                var gone := DetachPath(doc, path.value.s, cs);
                r == if gone == Nothing then Applied(13, doc) else Applied(7, gone.rest))
  {
    InvalidIff(patch, cs);
    WordsDiffer();
  }
}
