/** JSON Patch operations as section 4 of RFC 6902 defines them, on meanings. */
module Rfc6902 {
  import opened CStrings
  import opened JsonTrees
  import opened JsonPointer
  import opened JsonPointerLaws

  datatype Operation =
    | Add(path: seq<string>, value: Doc)
    | Remove(path: seq<string>)
    | Replace(path: seq<string>, value: Doc)
    | Move(from: seq<string>, path: seq<string>)
    | Copy(from: seq<string>, path: seq<string>)
    | Test(path: seq<string>, value: Doc)

  /** The value of the "op" member, by which section 4 tells the operations apart. */
  function OpWord(op: Operation): string {
    match op
    case Add(_, _) => "add"
    case Remove(_) => "remove"
    case Replace(_, _) => "replace"
    case Move(_, _) => "move"
    case Copy(_, _) => "copy"
    case Test(_, _) => "test"
  }

  predicate IsOpWord(word: string) {
    word in {"add", "remove", "replace", "move", "copy", "test"}
  }

  function Parent(path: seq<string>): seq<string>
    requires path != []
  {
    path[..|path| - 1]
  }

  function Last(path: seq<string>): string
    requires path != []
  {
    path[|path| - 1]
  }

  /** `d` with the child that `token` selects replaced. */
  function PutChild(d: Doc, token: string, v: Doc, cs: bool): Doc
    requires DocChild(d, token, cs).Some?
  {
    match d
    case Obj(fields) => Obj(fields[Norm(cs, token) := v])
    case Arr(elements) => Arr(elements[Rfc6901Index(token).value := v])
  }

  /** `d` with the value at an existing location replaced. */
  function DocPut(d: Doc, path: seq<string>, v: Doc, cs: bool): Doc
    requires DocGet(d, path, cs).Some?
  {
    if path == [] then v
    else PutChild(d, path[0], DocPut(DocChild(d, path[0], cs).value, path[1..], v, cs), cs)
  }

  /** Adding to a container: a member is set; an element is inserted in front of the index, or appended for "-". */
  function AddTo(d: Doc, token: string, v: Doc, cs: bool): Option<Doc> {
    match d
    case Obj(fields) => Some(Obj(fields[Norm(cs, token) := v]))
    case Arr(elements) =>
      if token == "-" then Some(Arr(elements + [v]))
      else
        var i := Rfc6901Index(token);
        if i.Some? && 0 <= i.value <= |elements| then
          Some(Arr(elements[..i.value] + [v] + elements[i.value..]))
        else None
    case Atom(_) => None
  }

  function RemoveFrom(d: Doc, token: string, cs: bool): Option<Doc> {
    if DocChild(d, token, cs) == None then None
    else
      match d
      case Obj(fields) => Some(Obj(fields - {Norm(cs, token)}))
      case Arr(elements) =>
        var i := Rfc6901Index(token).value;
        Some(Arr(elements[..i] + elements[i + 1..]))
  }

  function DocAdd(d: Doc, path: seq<string>, v: Doc, cs: bool): Option<Doc> {
    if path == [] then Some(v)
    else
      var container := DocGet(d, Parent(path), cs);
      if container == None then None
      else
        var changed := AddTo(container.value, Last(path), v, cs);
        if changed == None then None else Some(DocPut(d, Parent(path), changed.value, cs))
  }

  /** Removing the root leaves nothing, which cJSON writes as an Invalid item. */
  function DocRemove(d: Doc, path: seq<string>, cs: bool): Option<Doc> {
    if path == [] then Some(Atom(Invalid))
    else
      var container := DocGet(d, Parent(path), cs);
      if container == None then None
      else
        var changed := RemoveFrom(container.value, Last(path), cs);
        if changed == None then None else Some(DocPut(d, Parent(path), changed.value, cs))
  }

  predicate ProperPrefix(a: seq<string>, b: seq<string>) {
    |a| < |b| && b[..|a|] == a
  }

  function Perform(d: Doc, op: Operation, cs: bool): Option<Doc> {
    match op
    case Add(path, value) => DocAdd(d, path, value, cs)
    case Remove(path) => DocRemove(d, path, cs)
    case Replace(path, value) =>
      if DocGet(d, path, cs) == None then None else Some(DocPut(d, path, value, cs))
    case Move(from, path) =>
      if ProperPrefix(from, path) then None
      else
        var value, rest := DocGet(d, from, cs), DocRemove(d, from, cs);
        if value == None || rest == None then None else DocAdd(rest.value, path, value.value, cs)
    case Copy(from, path) =>
      var value := DocGet(d, from, cs);
      if value == None then None else DocAdd(d, path, value.value, cs)
    case Test(path, value) =>
      if DocGet(d, path, cs) == Some(value) then Some(d) else None
  }

  /** Section 5: operations in turn, the first error ends it. */
  function PerformAll(d: Doc, ops: seq<Operation>, cs: bool): Option<Doc>
    decreases |ops|
  {
    if ops == [] then Some(d)
    else
      var r := Perform(d, ops[0], cs);
      if r == None then None else PerformAll(r.value, ops[1..], cs)
  }
}
