/** Whole runs of list edits, and copying a list that can only be trusted through its next pointers. */
module ItemRuns {
  import opened Items
  import opened ItemLists

  datatype Edit =
    | Add(key: string)
    | Insert(which: int, key: string)
    | Detach(which: int)
    | Replace(which: int, key: string)

  /** What an edit does to the sequence of names. Indices that name no item leave the list alone, except that an insert
      behind the end appends. */
  function Edited(names: seq<string>, e: Edit): seq<string> {
    match e
    case Add(key) => names + [key]
    case Insert(which, key) =>
      if which < 0 then names else InsertAt(names, if which < |names| then which else |names|, key)
    case Detach(which) => if 0 <= which < |names| then RemoveItem(names, which) else names
    case Replace(which, key) => if 0 <= which < |names| then names[which := key] else names
  }

  function EditedAll(names: seq<string>, edits: seq<Edit>): seq<string> {
    if edits == [] then names else Edited(EditedAll(names, edits[..|edits| - 1]), edits[|edits| - 1])
  }

  ghost function Names(nodes: seq<Item>): (r: seq<string>)
    reads nodes
    ensures |r| == |nodes| && forall i :: 0 <= i < |r| ==> r[i] == nodes[i].key
  {
    seq(|nodes|, i requires 0 <= i < |nodes| reads nodes => nodes[i].key)
  }

  lemma NamesInsert(nodes: seq<Item>, i: nat, item: Item)
    requires i <= |nodes|
    ensures Names(InsertAt(nodes, i, item)) == InsertAt(Names(nodes), i, item.key)
    ensures forall n :: n in InsertAt(nodes, i, item) ==> n in nodes || n == item
  {
  }

  lemma NamesRemove(nodes: seq<Item>, i: nat)
    requires i < |nodes|
    ensures Names(RemoveItem(nodes, i)) == RemoveItem(Names(nodes), i)
    ensures forall n :: n in RemoveItem(nodes, i) ==> n in nodes
  {
  }

  lemma NamesReplace(nodes: seq<Item>, i: nat, item: Item)
    requires i < |nodes|
    ensures Names(nodes[i := item]) == Names(nodes)[i := item.key]
    ensures forall n :: n in nodes[i := item] ==> n in nodes || n == item
  {
  }

  method PerformAdd(parent: Item, e: Edit, ghost nodes: seq<Item>) returns (ghost nodes': seq<Item>)
    requires Kept(parent, nodes) && e.Add?
    modifies parent`child, AsSet(nodes)`next, AsSet(nodes)`prev
    ensures Kept(parent, nodes')
    ensures Names(nodes') == Edited(old(Names(nodes)), e)
    ensures forall n :: n in nodes' ==> n in nodes || fresh(n)
  {
    ghost var names := Names(nodes);
    var item := new Item(e.key);
    var ok := Append(parent, item, nodes);
    nodes' := InsertAt(nodes, |nodes|, item);
    assert nodes' == nodes + [item];
    NamesInsert(nodes, |nodes|, item);
    assert Names(nodes) == names;
    assert InsertAt(names, |names|, e.key) == names + [e.key];
  }

  method PerformInsert(parent: Item, e: Edit, ghost nodes: seq<Item>) returns (ghost nodes': seq<Item>)
    requires Kept(parent, nodes) && e.Insert?
    modifies parent`child, AsSet(nodes)`next, AsSet(nodes)`prev
    ensures Kept(parent, nodes')
    ensures Names(nodes') == Edited(old(Names(nodes)), e)
    ensures forall n :: n in nodes' ==> n in nodes || fresh(n)
  {
    ghost var names := Names(nodes);
    var item := new Item(e.key);
    var ok := InsertItemInArray(parent, e.which, item, nodes);
    assert Names(nodes) == names;
    nodes' := nodes;
    if ok {
      ghost var i := if e.which < |nodes| then e.which else |nodes|;
      nodes' := InsertAt(nodes, i, item);
      NamesInsert(nodes, i, item);
    }
  }

  method PerformDetach(parent: Item, e: Edit, ghost nodes: seq<Item>) returns (ghost nodes': seq<Item>)
    requires Kept(parent, nodes) && e.Detach?
    modifies parent`child, AsSet(nodes)`next, AsSet(nodes)`prev
    ensures Kept(parent, nodes')
    ensures Names(nodes') == Edited(old(Names(nodes)), e)
    ensures forall n :: n in nodes' ==> n in nodes || fresh(n)
  {
    ghost var names := Names(nodes);
    var item := DetachItemFromArray(parent, e.which, nodes);
    assert Names(nodes) == names;
    nodes' := nodes;
    if item != null {
      nodes' := RemoveItem(nodes, e.which);
      NamesRemove(nodes, e.which);
    }
  }

  method PerformReplace(parent: Item, e: Edit, ghost nodes: seq<Item>) returns (ghost nodes': seq<Item>)
    requires Kept(parent, nodes) && e.Replace?
    modifies parent`child, AsSet(nodes)`next, AsSet(nodes)`prev
    ensures Kept(parent, nodes')
    ensures Names(nodes') == Edited(old(Names(nodes)), e)
    ensures forall n :: n in nodes' ==> n in nodes || fresh(n)
  {
    ghost var names := Names(nodes);
    var item := new Item(e.key);
    var ok := ReplaceItemInArray(parent, e.which, item, nodes);
    assert Names(nodes) == names;
    nodes' := nodes;
    if ok {
      nodes' := nodes[e.which := item];
      NamesReplace(nodes, e.which, item);
    }
  }

  /** One edit through the public entry points. */
  method Perform(parent: Item, e: Edit, ghost nodes: seq<Item>) returns (ghost nodes': seq<Item>)
    requires Kept(parent, nodes)
    modifies parent`child, AsSet(nodes)`next, AsSet(nodes)`prev
    ensures Kept(parent, nodes')
    ensures Names(nodes') == Edited(old(Names(nodes)), e)
    ensures forall n :: n in nodes' ==> n in nodes || fresh(n)
  {
    match e {
      case Add(_) => nodes' := PerformAdd(parent, e, nodes);
      case Insert(_, _) => nodes' := PerformInsert(parent, e, nodes);
      case Detach(_) => nodes' := PerformDetach(parent, e, nodes);
      case Replace(_, _) => nodes' := PerformReplace(parent, e, nodes);
    }
  }

  /** Any run of edits behaves like the run of sequence operations and keeps the list well-kept. */
  method Run(parent: Item, edits: seq<Edit>) returns (ghost nodes: seq<Item>)
    requires parent.child == null
    modifies parent`child
    ensures Kept(parent, nodes)
    ensures forall n :: n in nodes ==> fresh(n)
    ensures Names(nodes) == EditedAll([], edits)
  {
    nodes := [];
    var i := 0;
    while i < |edits|
      invariant i <= |edits|
      invariant Kept(parent, nodes)
      invariant forall n :: n in nodes ==> fresh(n)
      invariant Names(nodes) == EditedAll([], edits[..i])
    {
      nodes := Perform(parent, edits[i], nodes);
      assert edits[..i + 1][..i] == edits[..i];
      i := i + 1;
    }
    assert edits[..i] == edits;
  }
}
