/** The cJSON struct: siblings are chained through next and prev, a parent points to its first child. */
module Items {
  import opened CStrings

  /** What an item holds besides its name and its links: the type without its flags, cJSON_IsReference, and the values;
      the double as its bits. */
  datatype Content = Content(kind: nat, isReference: bool, valueint: int, valuedouble: bv64, valuestring: Option<string>)

  class Item {
    const key: string
    const content: Content
    var next: Item?
    var prev: Item?
    var child: Item?

    constructor (key: string, content: Content := Content(0, false, 0, 0, None))
      ensures this.key == key && this.content == content && next == null && prev == null && child == null
    {
      this.key, this.content := key, content;
      next, prev, child := null, null, null;
    }
  }

  predicate Distinct<T(==)>(s: seq<T>) {
    forall i, j :: 0 <= i < j < |s| ==> s[i] != s[j]
  }

  predicate Disjoint<T(==)>(s: seq<T>, t: seq<T>) {
    forall i, j :: 0 <= i < |s| && 0 <= j < |t| ==> s[i] != t[j]
  }

  function AsSet(nodes: seq<Item>): set<Item> {
    set n | n in nodes
  }

  /** Neighbours point at each other; what the first prev and the last next hold is left open. */
  ghost predicate Linked(nodes: seq<Item>)
    reads nodes
  {
    && Distinct(nodes)
    && (forall i :: 0 <= i < |nodes| - 1 ==> nodes[i].next == nodes[i + 1])
    && (forall i :: 1 <= i < |nodes| ==> nodes[i].prev == nodes[i - 1])
  }

  /** A list that can be walked through next: linked, and the last next is NULL. */
  ghost predicate Chain(nodes: seq<Item>)
    reads nodes
  {
    Linked(nodes) && (nodes != [] ==> nodes[|nodes| - 1].next == null)
  }

  lemma NextOf(nodes: seq<Item>, i: nat)
    requires Chain(nodes) && i < |nodes|
    ensures nodes[i].next == if i + 1 < |nodes| then nodes[i + 1] else null
  {
  }

  lemma PrevOf(nodes: seq<Item>, i: nat)
    requires Linked(nodes) && 0 < i < |nodes|
    ensures nodes[i].prev == nodes[i - 1]
  {
  }

  function Head(nodes: seq<Item>): Item? {
    if nodes == [] then null else nodes[0]
  }

  /** The items with the names they carry. */
  ghost function Entries(nodes: seq<Item>): (r: seq<Member<Item>>)
    reads nodes
    ensures |r| == |nodes|
    ensures forall i :: 0 <= i < |r| ==> r[i] == Member(nodes[i].key, nodes[i])
  {
    seq(|nodes|, i requires 0 <= i < |nodes| reads nodes => Member(nodes[i].key, nodes[i]))
  }

  /** Two lists that are joined where one ends and the other begins are one list. */
  lemma LinkedJoin(m: seq<Item>, a: seq<Item>)
    requires Linked(m) && Linked(a) && Disjoint(m, a)
    requires m != [] && a != [] ==> m[|m| - 1].next == a[0] && a[0].prev == m[|m| - 1]
    ensures Linked(m + a)
  {
    var s := m + a;
    forall i, j | 0 <= i < j < |s| ensures s[i] != s[j] {
      if j < |m| {
        assert m[i] != m[j];
      } else if i >= |m| {
        assert a[i - |m|] != a[j - |m|];
      } else {
        assert m[i] != a[j - |m|];
      }
    }
    forall i | 0 <= i < |s| - 1 ensures s[i].next == s[i + 1] && s[i + 1].prev == s[i] {
      if i + 1 < |m| {
        assert m[i].next == m[i + 1];
        PrevOf(m, i + 1);
      } else if i >= |m| {
        assert a[i - |m|].next == a[i - |m| + 1];
        PrevOf(a, i - |m| + 1);
      }
    }
    forall i | 1 <= i < |s| ensures s[i].prev == s[i - 1] {
      assert s[i - 1 + 1].prev == s[i - 1];
    }
  }
}
