/** sort_list: merge sort of a child list in place, by relinking next and prev. */
module ListSort {
  import opened CStrings
  import opened MergeSort
  import opened Items

  /** Is every name strictly before the next one? */
  method ScanSorted(list: Item, caseSensitive: bool, ghost nodes: seq<Item>) returns (sorted: bool)
    requires Chain(nodes) && nodes != [] && list == nodes[0]
    ensures sorted <==> Ascending(Entries(nodes), caseSensitive)
  {
    var current := list;
    ghost var i := 0;
    while current.next != null
      invariant i < |nodes| && current == nodes[i]
      invariant forall k :: 0 <= k < i ==> Before(Entries(nodes)[k], Entries(nodes)[k + 1], caseSensitive)
      decreases |nodes| - i
    {
      assert i + 1 < |nodes|;
      var diff := CompareStrings(current.key, current.next.key, caseSensitive);
      if diff >= 0 {
        assert !Before(Entries(nodes)[i], Entries(nodes)[i + 1], caseSensitive);
        return false;
      }
      current := current.next;
      i := i + 1;
    }
    NextOf(nodes, i);
    return true;
  }

  /** The item behind the first half: one pointer goes one item at a time, the other two. */
  method FindMiddle(list: Item, ghost nodes: seq<Item>) returns (second: Item)
    requires Chain(nodes) && |nodes| > 1 && list == nodes[0]
    ensures second == nodes[(|nodes| + 1) / 2]
  {
    var slow: Item?, current: Item? := list, list;
    ghost var i, c := 0, 0;
    while current != null
      invariant i <= |nodes| && c <= |nodes|
      invariant slow == if i < |nodes| then nodes[i] else null
      invariant current == if c < |nodes| then nodes[c] else null
      invariant c == if 2 * i <= |nodes| then 2 * i else |nodes|
      invariant 2 * i <= |nodes| + 1
      decreases |nodes| - c
    {
      NextOf(nodes, i);
      slow, i := slow.next, i + 1;
      NextOf(nodes, c);
      current, c := current.next, c + 1;
      if current != null {
        NextOf(nodes, c);
        current, c := current.next, c + 1;
      }
    }
    second := slow;
  }

  /** Cut the list in front of its middle. */
  method Split(list: Item, ghost nodes: seq<Item>, ghost all: set<Item>) returns (second: Item)
    requires Chain(nodes) && |nodes| > 1 && list == nodes[0] && all == set n | n in nodes
    modifies all`next, all`prev
    ensures second == nodes[(|nodes| + 1) / 2]
    ensures second.prev == null && list.prev == old(list.prev)
    ensures Chain(nodes[..(|nodes| + 1) / 2]) && Chain(nodes[(|nodes| + 1) / 2..])
    ensures Entries(nodes[..(|nodes| + 1) / 2]) == old(Entries(nodes))[..(|nodes| + 1) / 2]
    ensures Entries(nodes[(|nodes| + 1) / 2..]) == old(Entries(nodes))[(|nodes| + 1) / 2..]
  {
    second := FindMiddle(list, nodes);
    ghost var middle := (|nodes| + 1) / 2;
    assert nodes[middle].prev == nodes[middle - 1];
    if second.prev != null {
      second.prev.next := null;
      second.prev := null;
    }
  }

  /** Everything the merge loop keeps: `m` is merged already, `a` and `b` are still to come. */
  ghost predicate Merging(m: seq<Item>, a: seq<Item>, b: seq<Item>, all: set<Item>)
    reads m, a, b
  {
    && Linked(m) && Chain(a) && Chain(b)
    && Disjoint(m, a) && Disjoint(m, b) && Disjoint(a, b)
    && Among(m, all) && Among(a, all) && Among(b, all)
  }

  ghost predicate Among(nodes: seq<Item>, all: set<Item>) {
    forall i :: 0 <= i < |nodes| ==> nodes[i] in all
  }

  /** One turn of the merge loop: hang the first item of `a` behind the merged items. */
  method AppendSmaller(resultTail: Item?, smaller: Item, ghost m: seq<Item>, ghost a: seq<Item>, ghost b: seq<Item>, ghost all: set<Item>)
    requires Merging(m, a, b, all) && a != [] && smaller == a[0]
    requires resultTail == if m == [] then null else m[|m| - 1]
    modifies all`next, all`prev
    ensures Merging(m + [a[0]], a[1..], b, all)
    ensures smaller.next == Head(a[1..])
    ensures (m + [a[0]])[0].prev == old((m + [a[0]])[0].prev)
    ensures Entries(m + [a[0]]) == old(Entries(m + [a[0]])) && Entries(a[1..]) == old(Entries(a[1..]))
    ensures Entries(b) == old(Entries(b))
  {
    NextOf(a, 0);
    if resultTail != null {
      resultTail.next := smaller;
      smaller.prev := resultTail;
    }
    LinkedJoin(m, [a[0]]);
  }

  /** Append what is left of one list to the merged items. */
  method AppendRest(resultTail: Item, rest: Item, ghost m: seq<Item>, ghost a: seq<Item>, ghost all: set<Item>)
    requires Linked(m) && Chain(a) && Disjoint(m, a) && m != [] && a != [] && Among(m, all) && Among(a, all)
    requires rest == a[0] && resultTail == m[|m| - 1]
    modifies all`next, all`prev
    ensures Chain(m + a) && m[0].prev == old(m[0].prev)
    ensures Entries(m + a) == old(Entries(m) + Entries(a))
  {
    resultTail.next := rest;
    rest.prev := resultTail;
    LinkedJoin(m, a);
    assert Entries(m + a) == Entries(m) + Entries(a);
  }

  lemma MergeTurn(m: seq<Item>, a: seq<Item>, b: seq<Item>, caseSensitive: bool)
    requires a != [] && b != []
    ensures var rest := Merge(Entries(a), Entries(b), caseSensitive);
      if Before(Entries(a)[0], Entries(b)[0], caseSensitive)
      then Entries(m) + rest == Entries(m + [a[0]]) + Merge(Entries(a[1..]), Entries(b), caseSensitive)
      else Entries(m) + rest == Entries(m + [b[0]]) + Merge(Entries(a), Entries(b[1..]), caseSensitive)
  {
    assert Entries(a)[1..] == Entries(a[1..]);
    assert Entries(b)[1..] == Entries(b[1..]);
    assert Entries(m + [a[0]]) == Entries(m) + [Entries(a)[0]];
    assert Entries(m + [b[0]]) == Entries(m) + [Entries(b)[0]];
  }

  lemma MergingSwap(m: seq<Item>, a: seq<Item>, b: seq<Item>, all: set<Item>)
    requires Merging(m, a, b, all)
    ensures Merging(m, b, a, all)
  {
  }

  /** The variables of the merge loop: the two heads, the head and the tail of the merged list. */
  ghost predicate MergeState(first: Item?, second: Item?, result: Item?, resultTail: Item?,
                             m: seq<Item>, a: seq<Item>, b: seq<Item>, all: set<Item>)
    reads m, a, b
  {
    && Merging(m, a, b, all)
    && first == Head(a) && second == Head(b) && (a != [] || b != [])
    && result == Head(m) && resultTail == (if m == [] then null else m[|m| - 1])
    && (m == [] ==> a != [] && b != [])
  }

  /** The body of the merge loop: the smaller head is moved over; on equal names the second list goes first. */
  method MergeOne(first: Item, second: Item, result: Item?, resultTail: Item?, caseSensitive: bool,
                  ghost m: seq<Item>, ghost a: seq<Item>, ghost b: seq<Item>, ghost all: set<Item>)
    returns (first': Item?, second': Item?, result': Item?, smaller: Item,
             ghost m': seq<Item>, ghost a': seq<Item>, ghost b': seq<Item>)
    requires MergeState(first, second, result, resultTail, m, a, b, all)
    modifies all`next, all`prev
    ensures MergeState(first', second', result', smaller, m', a', b', all)
    ensures |a'| + |b'| < |a| + |b|
    ensures m' == m + [smaller] && (smaller == first || smaller == second)
    ensures m'[0].prev == old(m'[0].prev)
    ensures Entries(m') + Merge(Entries(a'), Entries(b'), caseSensitive)
         == old(Entries(m) + Merge(Entries(a), Entries(b), caseSensitive))
  {
    var diff := CompareStrings(first.key, second.key, caseSensitive);
    MergeTurn(m, a, b, caseSensitive);
    first', second' := first, second;
    if diff < 0 {
      smaller, m', a', b' := first, m + [first], a[1..], b;
      AppendSmaller(resultTail, first, m, a, b, all);
      first' := first.next;
    } else {
      smaller, m', a', b' := second, m + [second], a, b[1..];
      MergingSwap(m, a, b, all);
      AppendSmaller(resultTail, second, m, b, a, all);
      MergingSwap(m', b', a', all);
      second' := second.next;
    }
    result' := if result == null then smaller else result;
  }

  /** Merge two sorted lists. */
  method MergeLists(list1: Item, list2: Item, caseSensitive: bool, ghost a0: seq<Item>, ghost b0: seq<Item>, ghost all: set<Item>)
    returns (result: Item, ghost merged: seq<Item>)
    requires Chain(a0) && Chain(b0) && Disjoint(a0, b0) && Among(a0, all) && Among(b0, all)
    requires a0 != [] && b0 != [] && list1 == a0[0] && list2 == b0[0]
    modifies all`next, all`prev
    ensures Chain(merged) && merged != [] && result == merged[0]
    ensures (result == list1 || result == list2) && result.prev == old(result.prev)
    ensures Entries(merged) == Merge(old(Entries(a0)), old(Entries(b0)), caseSensitive)
  {
    var first: Item?, second: Item?, start: Item?, resultTail: Item? := list1, list2, null, null;
    ghost var m, a, b: seq<Item> := [], a0, b0;
    ghost var goal := Merge(Entries(a0), Entries(b0), caseSensitive);
    assert Entries(m) == [];
    while first != null && second != null
      invariant MergeState(first, second, start, resultTail, m, a, b, all)
      invariant goal == Entries(m) + Merge(Entries(a), Entries(b), caseSensitive)
      invariant if m == [] then first == list1 && second == list2 && list1.prev == old(list1.prev) && list2.prev == old(list2.prev)
                else (m[0] == list1 || m[0] == list2) && m[0].prev == old(m[0].prev)
      decreases |a| + |b|
    {
      first, second, start, resultTail, m, a, b := MergeOne(first, second, start, resultTail, caseSensitive, m, a, b, all);
    }
    result := start;
    merged := FinishMerge(first, second, resultTail, m, a, b, all, caseSensitive);
  }

  /** Hang what is left of the longer list behind the merged items. */
  method FinishMerge(first: Item?, second: Item?, resultTail: Item, ghost m: seq<Item>, ghost a: seq<Item>, ghost b: seq<Item>,
                     ghost all: set<Item>, ghost caseSensitive: bool)
    returns (ghost merged: seq<Item>)
    requires Merging(m, a, b, all) && first == Head(a) && second == Head(b)
    requires (a != [] && b == []) || (a == [] && b != [])
    requires m != [] && resultTail == m[|m| - 1]
    modifies all`next, all`prev
    ensures Chain(merged) && merged != [] && merged[0] == m[0] && m[0].prev == old(m[0].prev)
    ensures Entries(merged) == old(Entries(m) + Merge(Entries(a), Entries(b), caseSensitive))
  {
    if first != null {
      AppendRest(resultTail, first, m, a, all);
      merged := m + a;
    } else {
      AppendRest(resultTail, second, m, b, all);
      merged := m + b;
    }
  }

  /** Entries that are a permutation of each other name the same items. */
  lemma SameItems(nodes: seq<Item>, entries: seq<Member<Item>>, sorted: seq<Item>, caseSensitive: bool)
    requires |entries| == |nodes| && forall i :: 0 <= i < |nodes| ==> entries[i].value == nodes[i]
    requires Entries(sorted) == Sort(entries, caseSensitive)
    ensures forall n :: n in sorted <==> n in nodes
  {
    SortPermutes(entries, caseSensitive);
    forall n | n in sorted ensures n in nodes {
      var i :| 0 <= i < |sorted| && sorted[i] == n;
      assert Entries(sorted)[i] in multiset(entries);
    }
    forall n | n in nodes ensures n in sorted {
      var i :| 0 <= i < |nodes| && nodes[i] == n;
      assert entries[i] in multiset(Entries(sorted));
    }
  }

  /** The sorted half still lies apart from the other half. */
  lemma HalfFacts(a0: seq<Item>, entries: seq<Member<Item>>, a: seq<Item>, other: seq<Item>, all: set<Item>, caseSensitive: bool)
    requires |entries| == |a0| && forall i :: 0 <= i < |a0| ==> entries[i].value == a0[i]
    requires Entries(a) == Sort(entries, caseSensitive)
    requires Disjoint(a0, other) && Among(a0, all)
    ensures Disjoint(a, other) && Disjoint(other, a) && Among(a, all)
    ensures |a| == |a0| && (a != [] ==> a[0] in a0 && a[0] !in other)
  {
    SameItems(a0, entries, a, caseSensitive);
    forall i | 0 <= i < |a| ensures a[i] in all && a[i] !in other {
      assert a[i] in a0;
    }
  }

  /** Sort one half; the other half is not touched. */
  method SortHalf(list: Item, caseSensitive: bool, ghost a0: seq<Item>, ghost other: seq<Item>, ghost all: set<Item>)
    returns (head: Item, ghost a: seq<Item>)
    requires Chain(a0) && Chain(other) && Disjoint(a0, other) && Among(a0, all) && other != []
    requires a0 != [] && list == a0[0]
    modifies all`next, all`prev
    ensures Chain(a) && a != [] && head == a[0] && Among(a, all) && head in a0 && head !in other
    ensures Chain(other) && Disjoint(a, other) && Disjoint(other, a)
    ensures Entries(a) == Sort(old(Entries(a0)), caseSensitive) && Entries(other) == old(Entries(other))
    ensures other[0].prev == old(other[0].prev)
    ensures head.prev == if head == list then old(list.prev) else null
    decreases |a0|, 2
  {
    ghost var entries := Entries(a0);
    var first: Item?;
    first, a := SortList(list, caseSensitive, a0);
    head := first;
    HalfFacts(a0, entries, a, other, all, caseSensitive);
  }

  /** What sort_list does with a list that is not sorted yet: split, sort both halves, merge. */
  method SplitAndMerge(list: Item, caseSensitive: bool,
                       ghost nodes: seq<Item>, ghost middle: nat, ghost all: set<Item>)
    returns (result: Item, ghost sorted: seq<Item>)
    requires Chain(nodes) && |nodes| > 1 && list == nodes[0] && middle == (|nodes| + 1) / 2
    requires all == set n | n in nodes
    modifies all`next, all`prev
    ensures Chain(sorted) && sorted != [] && result == sorted[0]
    ensures Entries(sorted) == Merge(Sort(old(Entries(nodes))[..middle], caseSensitive),
                                     Sort(old(Entries(nodes))[middle..], caseSensitive), caseSensitive)
    ensures result.prev == if result == list then old(list.prev) else null
    decreases |nodes|, 0
  {
    ghost var a, b := nodes[..middle], nodes[middle..];
    HalvesOf(nodes, middle, all);
    var first, second;
    second := Split(list, nodes, all);
    first, a := SortHalf(list, caseSensitive, a, b, all);
    second, b := SortHalf(second, caseSensitive, b, a, all);
    result, sorted := MergeLists(first, second, caseSensitive, a, b, all);
  }

  lemma HalvesOf(nodes: seq<Item>, middle: nat, all: set<Item>)
    requires Distinct(nodes) && middle <= |nodes| && all == set n | n in nodes
    ensures Among(nodes[..middle], all) && Among(nodes[middle..], all)
    ensures Disjoint(nodes[..middle], nodes[middle..])
    ensures middle > 0 ==> nodes[0] !in nodes[middle..]
  {
  }

  /** sort_list. `nodes` are the items of the list, in order; `sorted` are the same items in their new order. The new
      first item keeps its prev if it was first before, and otherwise has none. */
  method SortList(list: Item?, caseSensitive: bool, ghost nodes: seq<Item>)
    returns (result: Item?, ghost sorted: seq<Item>)
    requires Chain(nodes) && list == Head(nodes)
    modifies nodes`next, nodes`prev
    ensures Chain(sorted) && result == Head(sorted)
    ensures Entries(sorted) == Sort(old(Entries(nodes)), caseSensitive)
    ensures result != null ==> result.prev == if result == list then old(list.prev) else null
    decreases |nodes|, 1
  {
    if list == null || list.next == null {
      if list != null {
        NextOf(nodes, 0);
      }
      return list, nodes;
    }
    var isSorted := ScanSorted(list, caseSensitive, nodes);
    if isSorted {
      return list, nodes;
    }
    SortUnfold(Entries(nodes), caseSensitive, (|nodes| + 1) / 2);
    result, sorted := SplitAndMerge(list, caseSensitive, nodes, (|nodes| + 1) / 2, set n | n in nodes);
  }
}
