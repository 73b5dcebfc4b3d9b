/**
 Editing a child list in place: add, insert, detach, replace. A well-kept list has consistent next and prev pointers,
 ends in NULL, and its first item's prev is the last item, which is how cJSON finds the end without walking.
 */
module ItemLists {
  import opened CStrings
  import opened Items
  import opened MergeSort
  import opened ListSort

  /** The children of `parent` as a walk through next sees them. */
  ghost predicate Walkable(parent: Item, nodes: seq<Item>)
    reads parent, nodes
  {
    Chain(nodes) && parent.child == Head(nodes) && parent !in nodes
  }

  ghost predicate Kept(parent: Item, nodes: seq<Item>)
    reads parent, nodes
  {
    Walkable(parent, nodes) && (nodes != [] ==> nodes[0].prev == nodes[|nodes| - 1])
  }

  function InsertAt<T>(s: seq<T>, i: nat, x: T): (r: seq<T>)
    requires i <= |s|
    ensures |r| == |s| + 1
    ensures forall j :: 0 <= j < |r| ==> r[j] == if j < i then s[j] else if j == i then x else s[j - 1]
  {
    s[..i] + [x] + s[i..]
  }

  function RemoveItem<T>(s: seq<T>, i: nat): (r: seq<T>)
    requires i < |s|
    ensures |r| == |s| - 1
    ensures forall j :: 0 <= j < |r| ==> r[j] == if j < i then s[j] else s[j + 1]
  {
    s[..i] + s[i + 1..]
  }

  /** get_array_item of cJSON.c and of cJSON_Utils.c. */
  method GetArrayItem(array': Item, index: nat, ghost nodes: seq<Item>) returns (item: Item?)
    requires Kept(array', nodes)
    ensures item == if index < |nodes| then nodes[index] else null
  {
    item := array'.child;
    var left := index;
    ghost var i := 0;
    while item != null && left > 0
      invariant i <= |nodes| && left == index - i
      invariant item == if i < |nodes| then nodes[i] else null
    {
      NextOf(nodes, i);
      left, item, i := left - 1, item.next, i + 1;
    }
  }

  /** get_object_item: the first item with that name. */
  method GetObjectItem(object': Item, name: string, caseSensitive: bool, ghost nodes: seq<Item>)
    returns (item: Item?, ghost i: nat)
    requires Kept(object', nodes)
    ensures i <= |nodes| && item == if i < |nodes| then nodes[i] else null
    ensures i < |nodes| ==> Norm(caseSensitive, nodes[i].key) == Norm(caseSensitive, name)
    ensures forall k :: 0 <= k < i ==> Norm(caseSensitive, nodes[k].key) != Norm(caseSensitive, name)
  {
    item, i := object'.child, 0;
    while item != null
      invariant i <= |nodes| && item == if i < |nodes| then nodes[i] else null
      invariant forall k :: 0 <= k < i ==> Norm(caseSensitive, nodes[k].key) != Norm(caseSensitive, name)
      decreases |nodes| - i
    {
      var diff := CompareStrings(name, item.key, caseSensitive);
      if diff == 0 {
        return;
      }
      NextOf(nodes, i);
      item, i := item.next, i + 1;
    }
  }

  /** The tail index the first prev stands for: -1 if there is none. */
  ghost predicate TailIs(nodes: seq<Item>, t: int)
    reads nodes
  {
    nodes != [] ==> if t == -1 then nodes[0].prev == null else 0 <= t < |nodes| && nodes[0].prev == nodes[t]
  }

  /** add_item_to_array, for an item that is in no list. The new item goes behind the item the first prev names, and
      what stood behind that one is cut off; without a first prev the item is dropped. */
  method AddItemToArray(array': Item, item: Item, ghost nodes: seq<Item>, ghost t: int) returns (ok: bool)
    requires Walkable(array', nodes) && item !in nodes && item.next == null && TailIs(nodes, t)
    modifies array'`child, AsSet(nodes)`next, AsSet(nodes)`prev, item`next, item`prev
    ensures ok <==> array' != item
    ensures ok && nodes == [] ==> Kept(array', [item])
    ensures ok && nodes != [] && t >= 0 ==> Kept(array', nodes[..t + 1] + [item])
    ensures !ok || (nodes != [] && t == -1) ==> Walkable(array', nodes) && TailIs(nodes, t)
  {
    if array' == item {
      return false;
    }
    var child := array'.child;
    if child == null {
      array'.child := item;
      item.prev := item;
      item.next := null;
    } else if child.prev != null {
      child.prev.next := item;
      item.prev := child.prev;
      array'.child.prev := item;
      assert Linked(nodes[..t + 1]);
      LinkedJoin(nodes[..t + 1], [item]);
    }
    return true;
  }

  /** On a well-kept list that is appending. */
  method Append(array': Item, item: Item, ghost nodes: seq<Item>) returns (ok: bool)
    requires Kept(array', nodes) && item !in nodes && item.next == null
    modifies array'`child, AsSet(nodes)`next, AsSet(nodes)`prev, item`next, item`prev
    ensures ok <==> array' != item
    ensures Kept(array', if ok then nodes + [item] else nodes)
  {
    assert nodes[..|nodes|] == nodes;
    ok := AddItemToArray(array', item, nodes, |nodes| - 1);
  }

  /** sort_object: afterwards the same items hang below the object, each once, in non-decreasing name order. The first
      prev names the old last item if the first item stayed first, and nothing otherwise. */
  method SortObject(object': Item, caseSensitive: bool, ghost nodes: seq<Item>) returns (ghost sorted: seq<Item>)
    requires Kept(object', nodes)
    modifies object'`child, AsSet(nodes)`next, AsSet(nodes)`prev
    ensures Walkable(object', sorted)
    ensures Entries(sorted) == Sort(old(Entries(nodes)), caseSensitive)
    ensures multiset(Entries(sorted)) == multiset(old(Entries(nodes)))
    ensures |sorted| == |nodes| && AsSet(sorted) == AsSet(nodes)
    ensures NonDecreasing(Entries(sorted), caseSensitive)
    ensures sorted != [] ==> sorted[0].prev == if sorted[0] == nodes[0] then nodes[|nodes| - 1] else null
  {
    ghost var entries := Entries(nodes);
    var head;
    head, sorted := SortList(object'.child, caseSensitive, nodes);
    SameItems(nodes, entries, sorted, caseSensitive);
    ghost var after := Entries(sorted);
    assert multiset(after) == multiset(entries) && NonDecreasing(after, caseSensitive) by {
      SortPermutes(entries, caseSensitive);
      SortOrders(entries, caseSensitive);
    }
    object'.child := head;
    assert Entries(sorted) == after;
  }

  /** What an object holds when it was sorted and then `m` was added: the first prev goes along with the first entry and still
      names the old last one, and another first entry has none. */
  function SortedThenAdded<T(==)>(s: seq<Member<T>>, m: Member<T>, caseSensitive: bool): seq<Member<T>> {
    var sorted := Sort(s, caseSensitive);
    if s == [] then [m]
    else if sorted[0] != s[0] then sorted
    else
      StaysIn(s, s[|s| - 1], caseSensitive);
      sorted[..IndexOf(sorted, s[|s| - 1]) + 1] + [m]
  }

  /** The entry arrives and nothing is lost exactly then. */
  lemma ArrivesIff<T>(s: seq<Member<T>>, m: Member<T>, caseSensitive: bool)
    requires Distinct(s)
    ensures SortedThenAdded(s, m, caseSensitive) == Sort(s, caseSensitive) + [m] <==> KeepsEnds(s, caseSensitive)
  {
    var sorted := Sort(s, caseSensitive);
    if s != [] {
      assert |sorted + [m]| == |sorted| + 1;
      if sorted[0] == s[0] {
        StaysIn(s, s[|s| - 1], caseSensitive);
        SortedDistinct(s, caseSensitive);
        CutJoins(sorted, IndexOf(sorted, s[|s| - 1]), m);
      }
    }
  }

  lemma CutJoins<T>(s: seq<T>, t: nat, m: T)
    requires t < |s|
    ensures s[..t + 1] + [m] == s + [m] <==> t == |s| - 1
  {
    assert |s[..t + 1] + [m]| == t + 2;
    if t == |s| - 1 {
      assert s[..t + 1] == s;
    }
  }

  lemma SortedDistinct<T>(s: seq<Member<T>>, caseSensitive: bool)
    requires Distinct(s)
    ensures Distinct(Sort(s, caseSensitive))
  {
    var sorted := Sort(s, caseSensitive);
    SortPermutes(s, caseSensitive);
    forall i, j | 0 <= i < j < |sorted| ensures sorted[i] != sorted[j] {
      if sorted[i] == sorted[j] {
        Twice(sorted, i, j);
        Once(s, sorted[i]);
      }
    }
  }

  lemma NotAscending<T>(s: seq<Member<T>>, i: nat, caseSensitive: bool)
    requires i + 1 < |s| && !Before(s[i], s[i + 1], caseSensitive)
    ensures !Ascending(s, caseSensitive)
  {
  }

  /** A first member that does not stay first: the new member is lost. */
  lemma NewIsLost<T>(x: Member<T>, y: Member<T>, m: Member<T>, caseSensitive: bool)
    requires Before(y, x, caseSensitive)
    ensures SortedThenAdded([x, y], m, caseSensitive) == [y, x]
  {
    LessTotal(Norm(caseSensitive, x.key), Norm(caseSensitive, y.key));
    var s := [x, y];
    NotAscending(s, 0, caseSensitive);
    assert s[..1] == [x] && s[1..] == [y];
    SortUnfold(s, caseSensitive, 1);
    assert Merge([x], [y], caseSensitive) == [y] + Merge([x], [], caseSensitive);
  }

  /** A last member that does not stay last: what sorting put behind it is lost. */
  lemma OldIsLost<T>(x: Member<T>, z: Member<T>, y: Member<T>, m: Member<T>, caseSensitive: bool)
    requires Before(x, y, caseSensitive) && Before(y, z, caseSensitive)
    ensures SortedThenAdded([x, z, y], m, caseSensitive) == [x, y, m]
  {
    LessTransitive(Norm(caseSensitive, x.key), Norm(caseSensitive, y.key), Norm(caseSensitive, z.key));
    LessTotal(Norm(caseSensitive, y.key), Norm(caseSensitive, z.key));
    LessTotal(Norm(caseSensitive, x.key), Norm(caseSensitive, y.key));
    var s := [x, z, y];
    NotAscending(s, 1, caseSensitive);
    assert s[..2] == [x, z] && s[2..] == [y];
    SortUnfold(s, caseSensitive, 2);
    assert Sort([x, z], caseSensitive) == [x, z];
    assert [x, z][1..] == [z];
    assert Merge([x, z], [y], caseSensitive) == [x] + Merge([z], [y], caseSensitive);
    assert Merge([z], [y], caseSensitive) == [y] + Merge([z], [], caseSensitive);
    var sorted := Sort(s, caseSensitive);
    assert sorted == [x, y, z] && sorted[1..][0] == y;
    assert IndexOf(sorted, y) == 1;
    assert sorted[..2] == [x, y];
  }

  /** Two objects that lose a member. */
  lemma AddedIsLost(caseSensitive: bool)
    ensures SortedThenAdded([Member("b", 1), Member("a", 2)], Member("c", 3), caseSensitive) == [Member("a", 2), Member("b", 1)]
    ensures SortedThenAdded([Member("a", 1), Member("c", 2), Member("b", 3)], Member("d", 4), caseSensitive)
            == [Member("a", 1), Member("b", 3), Member("d", 4)]
  {
    assert Norm(caseSensitive, "a") == "a" && Norm(caseSensitive, "b") == "b" && Norm(caseSensitive, "c") == "c";
    NewIsLost(Member("b", 1), Member("a", 2), Member("c", 3), caseSensitive);
    OldIsLost(Member("a", 1), Member("c", 2), Member("b", 3), Member("d", 4), caseSensitive);
  }

  /** Where the first prev of a sorted list points to, as an index. */
  ghost function TailAfterSort<T>(s: seq<Member<T>>, sorted: seq<Member<T>>, caseSensitive: bool): (t: int)
    requires sorted == Sort(s, caseSensitive)
    ensures s != [] && t == -1 ==> sorted[0] != s[0]
    ensures t != -1 ==> 0 <= t < |s| && sorted[0] == s[0] && sorted[t] == s[|s| - 1] && t == IndexOf(sorted, s[|s| - 1])
  {
    if s == [] || sorted[0] != s[0] then -1
    else
      StaysIn(s, s[|s| - 1], caseSensitive);
      IndexOf(sorted, s[|s| - 1])
  }

  lemma EntriesCut(nodes: seq<Item>, t: nat, item: Item)
    requires t <= |nodes|
    ensures Entries(nodes[..t] + [item]) == Entries(nodes)[..t] + [Member(item.key, item)]
  {
  }

  /** Adding to an object that was sorted before. */
  method SortThenAdd(object': Item, item: Item, caseSensitive: bool, ghost nodes: seq<Item>)
    returns (ok: bool, ghost after: seq<Item>)
    requires Kept(object', nodes) && item !in nodes && item.next == null && item != object'
    modifies object'`child, AsSet(nodes)`next, AsSet(nodes)`prev, item`next, item`prev
    ensures ok && Walkable(object', after)
    ensures Entries(after) == SortedThenAdded(old(Entries(nodes)), Member(item.key, item), caseSensitive)
  {
    ghost var entries := Entries(nodes);
    ghost var sorted := SortObject(object', caseSensitive, nodes);
    assert item !in AsSet(sorted);
    ghost var members := Entries(sorted);
    ghost var t := TailAfterSort(entries, members, caseSensitive);
    ok, after := AddSorted(object', item, sorted, t);
  }

  /** The add, on a list whose first prev names the item at `t`. */
  method AddSorted(object': Item, item: Item, ghost sorted: seq<Item>, ghost t: int) returns (ok: bool, ghost after: seq<Item>)
    requires Walkable(object', sorted) && item !in sorted && item.next == null && item != object' && TailIs(sorted, t)
    modifies object'`child, AsSet(sorted)`next, AsSet(sorted)`prev, item`next, item`prev
    ensures ok && Walkable(object', after)
    ensures Entries(after) ==
      if sorted == [] then [Member(item.key, item)]
      else if t < 0 then old(Entries(sorted))
      else old(Entries(sorted))[..t + 1] + [Member(item.key, item)]
  {
    ghost var members := Entries(sorted);
    after := if sorted == [] then [item] else if t == -1 then sorted else sorted[..t + 1] + [item];
    ok := AddItemToArray(object', item, sorted, t);
    assert Entries(sorted) == members;
    if sorted != [] && t >= 0 {
      EntriesCut(sorted, t + 1, item);
    }
  }

  /** The relinking shared by cJSON_InsertItemInArray and insert_item_in_array: put an item in front of another. */
  method LinkBefore(array': Item, after: Item, newItem: Item, ghost nodes: seq<Item>, ghost i: nat)
    requires Kept(array', nodes) && i < |nodes| && after == nodes[i]
    requires newItem !in nodes && newItem != array'
    modifies array'`child, nodes`next, nodes`prev, newItem`next, newItem`prev
    ensures Kept(array', InsertAt(nodes, i, newItem))
  {
    if i > 0 {
      PrevOf(nodes, i);
    }
    newItem.next := after;
    newItem.prev := after.prev;
    after.prev := newItem;
    if after == array'.child {
      array'.child := newItem;
    } else {
      newItem.prev.next := newItem;
    }
  }

  /** cJSON_InsertItemInArray: an index behind the end appends. */
  method InsertItemInArray(array': Item, which: int, newItem: Item, ghost nodes: seq<Item>) returns (ok: bool)
    requires Kept(array', nodes) && newItem !in nodes && newItem.next == null && newItem != array'
    modifies array'`child, AsSet(nodes)`next, AsSet(nodes)`prev, newItem`next, newItem`prev
    ensures ok <==> which >= 0
    ensures Kept(array', if ok then InsertAt(nodes, if which < |nodes| then which else |nodes|, newItem) else nodes)
  {
    if which < 0 {
      return false;
    }
    var after := GetArrayItem(array', which, nodes);
    if after == null {
      ok := Append(array', newItem, nodes);
      assert InsertAt(nodes, |nodes|, newItem) == nodes + [newItem];
      return;
    }
    LinkBefore(array', after, newItem, nodes, which);
    return true;
  }

  /** insert_item_in_array of cJSON_Utils.c: an index behind the end is refused. */
  method InsertItemInArrayStrict(array': Item, which: nat, newItem: Item, ghost nodes: seq<Item>) returns (ok: bool)
    requires Kept(array', nodes) && newItem !in nodes && newItem.next == null && newItem != array'
    modifies array'`child, AsSet(nodes)`next, AsSet(nodes)`prev, newItem`next, newItem`prev
    ensures ok <==> which <= |nodes|
    ensures Kept(array', if which <= |nodes| then InsertAt(nodes, which, newItem) else nodes)
  {
    var child, left := array'.child, which;
    ghost var i := 0;
    while child != null && left > 0
      invariant i <= |nodes| && left == which - i
      invariant child == if i < |nodes| then nodes[i] else null
      invariant Kept(array', nodes) && newItem.next == null
    {
      NextOf(nodes, i);
      left, child, i := left - 1, child.next, i + 1;
    }
    if left > 0 {
      return false;
    }
    if child == null {
      var added := Append(array', newItem, nodes);
      assert InsertAt(nodes, |nodes|, newItem) == nodes + [newItem];
      return true;
    }
    LinkBefore(array', child, newItem, nodes, which);
    return true;
  }

  /** cJSON_DetachItemViaPointer. Whatever the first prev names is handed on to the new first item; the prev of a last item
      that leaves takes its place. So a well-kept list stays one. */
  method DetachItemViaPointer(parent: Item, item: Item, ghost nodes: seq<Item>, ghost i: nat)
    requires Walkable(parent, nodes) && i < |nodes| && item == nodes[i]
    modifies parent`child, nodes`next, nodes`prev
    ensures Walkable(parent, RemoveItem(nodes, i))
    ensures |nodes| > 1 ==>
              RemoveItem(nodes, i)[0].prev == if 0 < i == |nodes| - 1 then nodes[i - 1] else old(nodes[0].prev)
    ensures old(Kept(parent, nodes)) ==> Kept(parent, RemoveItem(nodes, i))
    ensures item.next == null && item.prev == null
  {
    NextOf(nodes, i);
    if i > 0 {
      PrevOf(nodes, i);
    }
    if item != parent.child {
      item.prev.next := item.next;
    }
    if item.next != null {
      item.next.prev := item.prev;
    }
    if item == parent.child {
      parent.child := item.next;
    } else if item.next == null {
      parent.child.prev := item.prev;
    }
    item.prev := null;
    item.next := null;
  }

  /** cJSON_ReplaceItemViaPointer; the replaced item ends up unlinked. */
  method ReplaceItemViaPointer(parent: Item, item: Item, replacement: Item, ghost nodes: seq<Item>, ghost i: nat)
    requires Kept(parent, nodes) && i < |nodes| && item == nodes[i]
    requires replacement == item || replacement !in nodes
    requires replacement != parent
    modifies parent`child, nodes`next, nodes`prev, replacement`next, replacement`prev
    ensures Kept(parent, nodes[i := replacement])
    ensures replacement != item ==> item.next == null && item.prev == null
  {
    NextOf(nodes, i);
    if i > 0 {
      PrevOf(nodes, i);
    }
    if replacement == item {
      return;
    }
    replacement.next := item.next;
    replacement.prev := item.prev;
    if replacement.next != null {
      replacement.next.prev := replacement;
    }
    if parent.child == item {
      if parent.child.prev == parent.child {
        replacement.prev := replacement;
      }
      parent.child := replacement;
    } else {
      if replacement.prev != null {
        replacement.prev.next := replacement;
      }
      if replacement.next == null {
        parent.child.prev := replacement;
      }
    }
    item.next := null;
    item.prev := null;
  }

  /** cJSON_DetachItemFromArray. */
  method DetachItemFromArray(array': Item, which: int, ghost nodes: seq<Item>) returns (item: Item?)
    requires Kept(array', nodes)
    modifies array'`child, AsSet(nodes)`next, AsSet(nodes)`prev
    ensures item == if 0 <= which < |nodes| then nodes[which] else null
    ensures Kept(array', if 0 <= which < |nodes| then RemoveItem(nodes, which) else nodes)
    ensures item != null ==> item.next == null && item.prev == null
  {
    if which < 0 {
      return null;
    }
    item := GetArrayItem(array', which, nodes);
    if item != null {
      DetachItemViaPointer(array', item, nodes, which);
    }
  }

  /** cJSON_ReplaceItemInArray. */
  method ReplaceItemInArray(array': Item, which: int, newItem: Item, ghost nodes: seq<Item>) returns (ok: bool)
    requires Kept(array', nodes) && newItem !in nodes && newItem != array'
    modifies array'`child, AsSet(nodes)`next, AsSet(nodes)`prev, newItem`next, newItem`prev
    ensures ok <==> 0 <= which < |nodes|
    ensures Kept(array', if ok then nodes[which := newItem] else nodes)
  {
    if which < 0 {
      return false;
    }
    var item := GetArrayItem(array', which, nodes);
    if item == null {
      return false;
    }
    ReplaceItemViaPointer(array', item, newItem, nodes, which);
    return true;
  }
}
