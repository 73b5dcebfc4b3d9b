/** Applying JSON patches: detach_path, apply_patch and ApplyPatches, with all their status codes. */
module JsonPatchApply {
  import opened CStrings
  import opened JsonTrees
  import opened JsonPointer
  import opened PointerDecode
  import opened JsonCompare

  /** strrchr(path, '/'): where the last token starts, or nothing. */
  function LastSlash(path: string): (r: Option<nat>)
    ensures r.Some? ==> r.value < |path| && path[r.value] == '/' && '/' !in path[r.value + 1..]
    ensures r.None? ==> '/' !in path
    decreases |path|
  {
    if path == "" then None
    else if path[|path| - 1] == '/' then Some(|path| - 1)
    else LastSlash(path[..|path| - 1])
  }

  /** get_object_item on a patch or a document; items other than objects have no named children. */
  function ObjectItem(j: Json, name: string, caseSensitive: bool): Option<Json> {
    if !j.Object? then None
    else
      var i := KeyIndex(j.members, name, caseSensitive);
      if i < |j.members| then Some(j.members[i].value) else None
  }

  datatype Detached = Nothing | Detached(item: Json, rest: Json)

  /** The second half of detach_path. An object's member is looked up without regard to case, whatever the mode. */
  function DetachChild(doc: Json, parent: Position, child: string): Detached
    requires IsNode(doc, parent)
  {
    match NodeAt(doc, parent)
    case Array(items) =>
      var i := IndexToken(Segment(child));
      if i.Some? && i.value < |items|
      then Detached(items[i.value], Put(doc, parent, Array(RemoveAt(items, i.value))))
      else Nothing
    case Object(members) =>
      var i := KeyIndex(members, child, false);
      if i < |members|
      then Detached(members[i].value, Put(doc, parent, Object(RemoveAt(members, i))))
      else Nothing
    case _ => Nothing
  }

  /** detach_path. */
  function DetachPath(doc: Json, path: string, caseSensitive: bool): Detached {
    var slash := LastSlash(path);
    if slash == None then Nothing
    else
      var parent := Locate(doc, path[..slash.value], caseSensitive);
      if parent == None then Nothing
      else DetachChild(doc, parent.value, DecodeInPlace(path[slash.value + 1..]))
  }

  datatype Applied = Applied(status: int, doc: Json)

  /** The array branch at the end of apply_patch: "-" appends, an index inserts. */
  function AddElement<T>(items: seq<T>, child: string, value: T): (r: (int, seq<T>))
    ensures r.0 == 0 || r.1 == items
  {
    if child == "-" then (0, items + [value])
    else
      var i := IndexToken(Segment(child));
      if i == None then (11, items)
      else if i.value > |items| then (10, items)
      else (0, items[..i.value] + [value] + items[i.value..])
  }

  /** The object branch: delete the member of that name, then append the new one. */
  function SetMember(members: seq<Member<Json>>, name: string, value: Json, caseSensitive: bool): seq<Member<Json>> {
    var i := KeyIndex(members, name, caseSensitive);
    (if i < |members| then RemoveAt(members, i) else members) + [Member(name, value)]
  }

  /** The three branches for the parent at the end of apply_patch. */
  function AddChild(doc: Json, parent: Position, child: string, value: Json, caseSensitive: bool): Applied
    requires IsNode(doc, parent)
  {
    match NodeAt(doc, parent)
    case Array(items) =>
      var r := AddElement(items, child, value);
      if r.0 == 0 then Applied(0, Put(doc, parent, Array(r.1))) else Applied(r.0, doc)
    case Object(members) =>
      Applied(0, Put(doc, parent, Object(SetMember(members, child, value, caseSensitive))))
    case _ => Applied(9, doc)
  }

  /** "Now, just add value to path". */
  function AddAt(doc: Json, path: string, value: Json, caseSensitive: bool): Applied {
    var slash := LastSlash(path);
    if slash == None then Applied(9, doc)
    else
      var parent := Locate(doc, path[..slash.value], caseSensitive);
      if parent == None then Applied(9, doc)
      else AddChild(doc, parent.value, DecodeInPlace(path[slash.value + 1..]), value, caseSensitive)
  }

  datatype Opcode = INVALID | ADD | REMOVE | REPLACE | MOVE | COPY | TEST

  /** decode_patch_operation. */
  function DecodePatchOperation(patch: Json, caseSensitive: bool): Opcode {
    match ObjectItem(patch, "op", caseSensitive)
    case Some(String(name)) =>
      if name == "add" then ADD
      else if name == "remove" then REMOVE
      else if name == "replace" then REPLACE
      else if name == "move" then MOVE
      else if name == "copy" then COPY
      else if name == "test" then TEST
      else INVALID
    case _ => INVALID
  }

  /** The item a "move" or "copy" brings along, with the document it leaves behind; or the error. */
  function Fetch(doc: Json, patch: Json, opcode: Opcode, caseSensitive: bool): (int, Detached) {
    match ObjectItem(patch, "from", caseSensitive)
    case None => (4, Nothing)
    case Some(String(from)) =>
      if opcode == MOVE then
        var d := DetachPath(doc, from, caseSensitive);
        if d == Nothing then (5, Nothing) else (0, d)
      else
        var pos := Locate(doc, from, caseSensitive);
        if pos == None then (5, Nothing) else (0, Detached(NodeAt(doc, pos.value), doc))
    case Some(_) => (5, Nothing)
  }

  /** A "test": what the path leads to is compared with the value, which sorts it. */
  function TestPatch(doc: Json, path: string, value: Option<Json>, caseSensitive: bool): Applied {
    var pos := Locate(doc, path, caseSensitive);
    if pos == None || value == None then Applied(1, doc)
    else
      var node := NodeAt(doc, pos.value);
      Applied(if JsonEqual(node, value.value, caseSensitive) then 0 else 1,
              Put(doc, pos.value, Left(node, value.value, caseSensitive)))
  }

  /** Everything behind the special case for the root. */
  function ApplyBelowRoot(doc: Json, patch: Json, path: string, opcode: Opcode, caseSensitive: bool): Applied {
    if opcode == REMOVE || opcode == REPLACE then
      var gone := DetachPath(doc, path, caseSensitive);
      if gone == Nothing then Applied(13, doc)
      else if opcode == REMOVE then Applied(0, gone.rest)
      else
        var value := ObjectItem(patch, "value", caseSensitive);
        if value == None then Applied(7, gone.rest) else AddAt(gone.rest, path, value.value, caseSensitive)
    else if opcode == MOVE || opcode == COPY then
      var (status, fetched) := Fetch(doc, patch, opcode, caseSensitive);
      if fetched == Nothing then Applied(status, doc) else AddAt(fetched.rest, path, fetched.item, caseSensitive)
    else
      var value := ObjectItem(patch, "value", caseSensitive);
      if value == None then Applied(7, doc) else AddAt(doc, path, value.value, caseSensitive)
  }

  /** apply_patch: the status it returns and the document it leaves. */
  function ApplyPatch(doc: Json, patch: Json, caseSensitive: bool): Applied {
    match ObjectItem(patch, "path", caseSensitive)
    case Some(String(path)) =>
      var opcode := DecodePatchOperation(patch, caseSensitive);
      if opcode == INVALID then Applied(3, doc)
      else if opcode == TEST then TestPatch(doc, path, ObjectItem(patch, "value", caseSensitive), caseSensitive)
      else if path == "" && opcode == REMOVE then Applied(0, Invalid)
      else if path == "" && (opcode == REPLACE || opcode == ADD) then
        var value := ObjectItem(patch, "value", caseSensitive);
        if value == None then Applied(7, doc) else Applied(0, value.value)
      else ApplyBelowRoot(doc, patch, path, opcode, caseSensitive)
    case _ => Applied(2, doc)
  }

  /** The patches in turn; the first that fails ends it. */
  function ApplyAll(doc: Json, patches: seq<Json>, caseSensitive: bool): Applied
    decreases |patches|
  {
    if patches == [] then Applied(0, doc)
    else
      var r := ApplyPatch(doc, patches[0], caseSensitive);
      if r.status != 0 then r else ApplyAll(r.doc, patches[1..], caseSensitive)
  }
}
