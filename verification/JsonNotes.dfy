/**
 JSON trees with a note on every object: which member the prev of its first member names. cJSON keeps the last member there,
 and add_item_to_array hangs a new member behind it. Sorting does not keep it up to date.
 */
module JsonNotes {
  import opened CStrings
  import opened JsonTrees
  import opened JsonPointer
  import opened MergeSort
  import opened JsonCompare

  /** The member at an index; none, for NULL; or an item that is not in the list any more. */
  datatype Tail = Nowhere | At(i: nat) | Gone

  datatype Noted =
    | Leaf(j: Json)
    | Items(items: seq<Noted>)
    | Members(members: seq<Member<Noted>>, tail: Tail)

  /** The tree without its notes. */
  function Erase(n: Noted): Json
    decreases n
  {
    match n
    case Leaf(j) => j
    case Items(items) => Array(EraseItems(items))
    case Members(members, _) => Object(EraseMembers(members))
  }

  function EraseItems(items: seq<Noted>): (r: seq<Json>)
    ensures |r| == |items|
    decreases items
  {
    seq(|items|, i requires 0 <= i < |items| => Erase(items[i]))
  }

  function EraseMembers(members: seq<Member<Noted>>): (r: seq<Member<Json>>)
    ensures |r| == |members|
    ensures forall i :: 0 <= i < |r| ==> r[i] == Member(members[i].key, Erase(members[i].value))
    decreases members
  {
    seq(|members|, i requires 0 <= i < |members| => Member(members[i].key, Erase(members[i].value)))
  }

  /** Containers are not leaves, and notes stay within their objects. */
  predicate Proper(n: Noted)
    decreases n
  {
    match n
    case Leaf(j) => !j.Array? && !j.Object?
    case Items(items) => forall x | x in items :: Proper(x)
    case Members(members, tail) => (tail.At? ==> tail.i < |members|) && forall m | m in members :: Proper(m.value)
  }

  /** The note that keeps a list well: the last of `n` members. */
  predicate Last(tail: Tail, n: nat) {
    n > 0 ==> tail == At(n - 1)
  }

  predicate WellKept(n: Noted)
    decreases n
  {
    match n
    case Leaf(_) => true
    case Items(items) => forall x | x in items :: WellKept(x)
    case Members(members, tail) => Last(tail, |members|) && forall m | m in members :: WellKept(m.value)
  }

  /** A tree as cJSON_Parse and cJSON_Duplicate build it. */
  function Fresh(j: Json): (n: Noted)
    ensures Erase(n) == j && Proper(n) && WellKept(n)
    decreases j
  {
    match j
    case Array(items) =>
      var x := seq(|items|, i requires 0 <= i < |items| => Fresh(items[i]));
      assert EraseItems(x) == items;
      Items(x)
    case Object(members) =>
      var x := seq(|members|, i requires 0 <= i < |members| => Member(members[i].key, Fresh(members[i].value)));
      assert EraseMembers(x) == members;
      Members(x, if members == [] then Nowhere else At(|members| - 1))
    case _ => Leaf(j)
  }

  // ---------- nodes ----------

  function NotedChildren(n: Noted): seq<Noted> {
    match n
    case Leaf(_) => []
    case Items(items) => items
    case Members(members, _) => seq(|members|, i requires 0 <= i < |members| => members[i].value)
  }

  lemma EraseChildren(n: Noted)
    requires Proper(n)
    ensures |Children(Erase(n))| == |NotedChildren(n)|
    ensures forall i :: 0 <= i < |NotedChildren(n)| ==> Children(Erase(n))[i] == Erase(NotedChildren(n)[i])
    ensures forall x :: x in NotedChildren(n) ==> Proper(x)
    ensures WellKept(n) ==> forall x :: x in NotedChildren(n) ==> WellKept(x)
  {
    if n.Members? {
      assert forall i :: 0 <= i < |n.members| ==> n.members[i] in n.members;
    }
  }

  function NotedAt(n: Noted, pos: Position): Noted
    requires Proper(n) && IsNode(Erase(n), pos)
    decreases |pos|
  {
    EraseChildren(n);
    if pos == [] then n else NotedAt(NotedChildren(n)[pos[0]], pos[1..])
  }

  function SetNotedChild(n: Noted, i: nat, child: Noted): Noted
    requires i < |NotedChildren(n)|
  {
    match n
    case Items(items) => Items(items[i := child])
    case Members(members, tail) => Members(members[i := members[i].(value := child)], tail)
  }

  function PutNoted(n: Noted, pos: Position, node: Noted): Noted
    requires Proper(n) && IsNode(Erase(n), pos)
    decreases |pos|
  {
    EraseChildren(n);
    if pos == [] then node else SetNotedChild(n, pos[0], PutNoted(NotedChildren(n)[pos[0]], pos[1..], node))
  }

  lemma {:induction false} EraseAt(n: Noted, pos: Position)
    requires Proper(n) && IsNode(Erase(n), pos)
    ensures Erase(NotedAt(n, pos)) == NodeAt(Erase(n), pos) && Proper(NotedAt(n, pos))
    ensures WellKept(n) ==> WellKept(NotedAt(n, pos))
    decreases |pos|
  {
    EraseChildren(n);
    if pos != [] {
      EraseAt(NotedChildren(n)[pos[0]], pos[1..]);
    }
  }

  lemma EraseSetChild(n: Noted, i: nat, child: Noted)
    requires Proper(n) && Proper(child) && i < |NotedChildren(n)|
    ensures i < |Children(Erase(n))| && Erase(SetNotedChild(n, i, child)) == SetChild(Erase(n), i, Erase(child))
    ensures Proper(SetNotedChild(n, i, child))
    ensures WellKept(n) && WellKept(child) ==> WellKept(SetNotedChild(n, i, child))
  {
    EraseChildren(n);
    match n
    case Items(items) =>
      assert EraseItems(items[i := child]) == EraseItems(items)[i := Erase(child)];
      assert forall x :: x in items[i := child] ==> x == child || x in items;
    case Members(members, _) =>
      var after := members[i := members[i].(value := child)];
      assert EraseMembers(after) == EraseMembers(members)[i := Member(members[i].key, Erase(child))];
      assert forall m :: m in after ==> m.value == child || m in members;
  }

  lemma {:induction false} ErasePut(n: Noted, pos: Position, node: Noted)
    requires Proper(n) && Proper(node) && IsNode(Erase(n), pos)
    ensures Erase(PutNoted(n, pos, node)) == Put(Erase(n), pos, Erase(node)) && Proper(PutNoted(n, pos, node))
    ensures WellKept(n) && WellKept(node) ==> WellKept(PutNoted(n, pos, node))
    decreases |pos|
  {
    EraseChildren(n);
    if pos != [] {
      var child := NotedChildren(n)[pos[0]];
      ErasePut(child, pos[1..], node);
      EraseSetChild(n, pos[0], PutNoted(child, pos[1..], node));
    }
  }

  // ---------- lists of members ----------

  /** The note after the member at `i` of `n` was taken away: the first prev is handed on, and set if the last one leaves. */
  function TailWithout(tail: Tail, n: nat, i: nat): (r: Tail)
    requires i < n
    ensures Last(tail, n) ==> Last(r, n - 1)
    ensures tail.At? && tail.i < n && r.At? ==> r.i < n - 1
  {
    if n == 1 then Nowhere
    else if 0 < i == n - 1 then At(n - 2)
    else
      match tail
      case At(k) => if k == i then Gone else if k > i then At(k - 1) else At(k)
      case _ => tail
  }

  function WithoutMember(members: seq<Member<Noted>>, tail: Tail, i: nat): Noted
    requires i < |members|
  {
    Members(RemoveAt(members, i), TailWithout(tail, |members|, i))
  }

  datatype Grown = Grown(node: Noted) | Dangling

  /** add_item_to_array: the new member goes behind the one the note names, and what stood behind that one is cut off; without
      a note it is dropped. */
  function WithMember(members: seq<Member<Noted>>, tail: Tail, m: Member<Noted>): Grown
    requires tail.At? ==> tail.i < |members|
  {
    if members == [] then Grown(Members([m], At(0)))
    else
      match tail
      case Nowhere => Grown(Members(members, Nowhere))
      case At(k) => Grown(Members(members[..k + 1] + [m], At(k + 1)))
      case Gone => Dangling
  }

  /** The member arrives behind all the others exactly if the note names the last one. */
  lemma ArrivesIffLast(members: seq<Member<Noted>>, tail: Tail, m: Member<Noted>)
    requires tail.At? ==> tail.i < |members|
    ensures var r := WithMember(members, tail, m);
      (r.Grown? && EraseMembers(r.node.members) == EraseMembers(members) + [Member(m.key, Erase(m.value))]) <==> Last(tail, |members|)
  {
    var r := WithMember(members, tail, m);
    if members == [] {
      assert EraseMembers([m]) == [] + [Member(m.key, Erase(m.value))];
    } else if tail.At? {
      assert |r.node.members| == tail.i + 2;
      if tail.i == |members| - 1 {
        assert members[..tail.i + 1] == members;
        assert EraseMembers(members + [m]) == EraseMembers(members) + [Member(m.key, Erase(m.value))];
      }
    }
  }

  // ---------- sorting ----------

  /** The members by number. */
  function Numbered<T>(members: seq<Member<T>>): (r: seq<Member<nat>>)
    ensures |r| == |members|
  {
    seq(|members|, i requires 0 <= i < |members| => Member(members[i].key, i))
  }

  /** What stands where after sorting. */
  function Order<T>(members: seq<Member<T>>, caseSensitive: bool): (r: seq<nat>)
    ensures |r| == |members|
  {
    var sorted := Sort(Numbered(members), caseSensitive);
    seq(|sorted|, i requires 0 <= i < |sorted| => sorted[i].value)
  }

  /** Both lists have the same names, and `f` takes the values of one to those of the other. */
  ghost predicate Mapped<T, U>(a: seq<Member<T>>, b: seq<Member<U>>, f: T -> U) {
    |a| == |b| && forall i :: 0 <= i < |a| ==> b[i] == Member(a[i].key, f(a[i].value))
  }

  lemma {:induction false} MergeMapped<T, U>(a: seq<Member<T>>, b: seq<Member<T>>, c: seq<Member<U>>, d: seq<Member<U>>, f: T -> U, caseSensitive: bool)
    requires Mapped(a, c, f) && Mapped(b, d, f)
    ensures Mapped(Merge(a, b, caseSensitive), Merge(c, d, caseSensitive), f)
    decreases |a| + |b|
  {
    if a != [] && b != [] {
      assert Before(a[0], b[0], caseSensitive) == Before(c[0], d[0], caseSensitive);
      if Before(a[0], b[0], caseSensitive) {
        MergeMapped(a[1..], b, c[1..], d, f, caseSensitive);
      } else {
        MergeMapped(a, b[1..], c, d[1..], f, caseSensitive);
      }
    }
  }

  /** Sorting looks at the names only. */
  lemma {:induction false} SortMapped<T, U>(a: seq<Member<T>>, b: seq<Member<U>>, f: T -> U, caseSensitive: bool)
    requires Mapped(a, b, f)
    ensures Mapped(Sort(a, caseSensitive), Sort(b, caseSensitive), f)
    decreases |a|
  {
    assert forall i :: 0 <= i < |a| - 1 ==> Before(a[i], a[i + 1], caseSensitive) == Before(b[i], b[i + 1], caseSensitive);
    assert Ascending(a, caseSensitive) == Ascending(b, caseSensitive);
    if |a| > 1 && !Ascending(a, caseSensitive) {
      var middle := (|a| + 1) / 2;
      SortUnfold(a, caseSensitive, middle);
      SortUnfold(b, caseSensitive, middle);
      SortMapped(a[..middle], b[..middle], f, caseSensitive);
      SortMapped(a[middle..], b[middle..], f, caseSensitive);
      MergeMapped(Sort(a[..middle], caseSensitive), Sort(a[middle..], caseSensitive), Sort(b[..middle], caseSensitive),
                  Sort(b[middle..], caseSensitive), f, caseSensitive);
    }
  }

  lemma OrderWithin<T>(members: seq<Member<T>>, caseSensitive: bool)
    ensures forall i :: 0 <= i < |members| ==> Order(members, caseSensitive)[i] < |members|
    ensures forall k :: 0 <= k < |members| ==> k in Order(members, caseSensitive)
  {
    var numbered := Numbered(members);
    var sorted := Sort(numbered, caseSensitive);
    forall i | 0 <= i < |members| ensures Order(members, caseSensitive)[i] < |members| {
      WasIn(numbered, sorted[i], caseSensitive);
    }
    forall k | 0 <= k < |members| ensures k in Order(members, caseSensitive) {
      assert numbered[k] == Member(members[k].key, k);
      StaysIn(numbered, numbered[k], caseSensitive);
      var i := IndexOf(sorted, numbered[k]);
      assert Order(members, caseSensitive)[i] == k;
    }
  }

  /** sort_object: the first prev goes along with the first member, and another first member has none. */
  function SortedMembers(members: seq<Member<Noted>>, tail: Tail, caseSensitive: bool): (r: Noted)
    requires tail.At? ==> tail.i < |members|
    ensures r.Members? && |r.members| == |members| && (r.tail.At? ==> r.tail.i < |members|)
  {
    var p := Order(members, caseSensitive);
    OrderWithin(members, caseSensitive);
    var sorted := seq(|p|, i requires 0 <= i < |p| => members[p[i]]);
    Members(sorted,
      if members == [] then tail
      else if p[0] != 0 then Nowhere
      else if tail.At? then At(IndexOf(p, tail.i))
      else tail)
  }

  lemma EraseSorted(members: seq<Member<Noted>>, tail: Tail, caseSensitive: bool)
    requires tail.At? ==> tail.i < |members|
    ensures EraseMembers(SortedMembers(members, tail, caseSensitive).members) == Sort(EraseMembers(members), caseSensitive)
    ensures forall m :: m in SortedMembers(members, tail, caseSensitive).members ==> m in members
  {
    var erased := EraseMembers(members);
    var f := (i: nat) => if i < |members| then Erase(members[i].value) else Null;
    assert Mapped(Numbered(members), erased, f);
    SortMapped(Numbered(members), erased, f, caseSensitive);
    OrderWithin(members, caseSensitive);
    var r, s := EraseMembers(SortedMembers(members, tail, caseSensitive).members), Sort(erased, caseSensitive);
    forall i | 0 <= i < |r| ensures r[i] == s[i] {
      WasIn(Numbered(members), Sort(Numbered(members), caseSensitive)[i], caseSensitive);
    }
  }

  lemma EndsInOrder<T>(members: seq<Member<T>>, caseSensitive: bool)
    requires KeepsEnds(Numbered(members), caseSensitive) && members != []
    ensures var p := Order(members, caseSensitive); p[0] == 0 && p[|members| - 1] == |members| - 1
  {
    var numbered := Numbered(members);
    assert numbered[0].value == 0 && numbered[|members| - 1].value == |members| - 1 && numbered != [];
  }

  /** Sorting keeps the list well if the first member stays first and the last one last. */
  lemma SortedWell(members: seq<Member<Noted>>, tail: Tail, caseSensitive: bool)
    requires (tail.At? ==> tail.i < |members|) && Last(tail, |members|) && KeepsEnds(Numbered(members), caseSensitive)
    ensures Last(SortedMembers(members, tail, caseSensitive).tail, |members|)
  {
    if members != [] {
      OrderWithin(members, caseSensitive);
      EndsInOrder(members, caseSensitive);
      OrderOnce(members, caseSensitive, IndexOf(Order(members, caseSensitive), tail.i), tail.i);
    }
  }

  lemma OrderOnce<T>(members: seq<Member<T>>, caseSensitive: bool, i: nat, j: nat)
    requires i < |members| && j < |members| && Order(members, caseSensitive)[i] == Order(members, caseSensitive)[j]
    ensures i == j
  {
    var numbered := Numbered(members);
    var sorted := Sort(numbered, caseSensitive);
    WasIn(numbered, sorted[i], caseSensitive);
    WasIn(numbered, sorted[j], caseSensitive);
    assert sorted[i] == sorted[j];
    SortPermutes(numbered, caseSensitive);
    if i < j {
      Twice(sorted, i, j);
      Once(numbered, sorted[i]);
    } else if j < i {
      Twice(sorted, j, i);
      Once(numbered, sorted[i]);
    }
  }

  // ---------- comparing ----------

  /** What compare_json leaves of a tree with notes. */
  function LeftNoted(n: Noted, b: Json, caseSensitive: bool): (r: Noted)
    requires Proper(n)
    decreases Size(Erase(n)), 0, 0
  {
    match (n, b)
    case (Items(x), Array(y)) => Items(LeftNotedItems(x, y, caseSensitive))
    case (Members(x, tail), Object(y)) =>
      var s := SortedMembers(x, tail, caseSensitive);
      EraseSorted(x, tail, caseSensitive);
      SortedSize(EraseMembers(x), caseSensitive);
      Members(LeftNotedMembers(s.members, Sort(y, caseSensitive), caseSensitive), s.tail)
    case (_, _) => n
  }

  lemma EraseTail(items: seq<Noted>)
    requires items != []
    ensures EraseItems(items)[0] == Erase(items[0]) && EraseItems(items)[1..] == EraseItems(items[1..])
  {
  }

  lemma EraseMembersTail(members: seq<Member<Noted>>)
    requires members != []
    ensures EraseMembers(members)[0] == Member(members[0].key, Erase(members[0].value))
    ensures EraseMembers(members)[1..] == EraseMembers(members[1..])
  {
  }

  function LeftNotedItems(a: seq<Noted>, b: seq<Json>, caseSensitive: bool): (r: seq<Noted>)
    requires forall x :: x in a ==> Proper(x)
    decreases ItemsSize(EraseItems(a)), 1, |a|
  {
    if a == [] || b == [] then a
    else
      EraseTail(a);
      [LeftNoted(a[0], b[0], caseSensitive)]
      + if JsonEqual(Erase(a[0]), b[0], caseSensitive) then LeftNotedItems(a[1..], b[1..], caseSensitive) else a[1..]
  }

  function LeftNotedMembers(a: seq<Member<Noted>>, b: seq<Member<Json>>, caseSensitive: bool): (r: seq<Member<Noted>>)
    requires forall m :: m in a ==> Proper(m.value)
    ensures |r| == |a|
    decreases MembersSize(EraseMembers(a)), 1, |a|
  {
    if a == [] || b == [] || Norm(caseSensitive, a[0].key) != Norm(caseSensitive, b[0].key) then a
    else
      EraseMembersTail(a);
      [Member(a[0].key, LeftNoted(a[0].value, b[0].value, caseSensitive))]
      + if JsonEqual(Erase(a[0].value), b[0].value, caseSensitive) then LeftNotedMembers(a[1..], b[1..], caseSensitive) else a[1..]
  }

  lemma {:induction false} EraseLeft(n: Noted, b: Json, caseSensitive: bool)
    requires Proper(n)
    ensures Proper(LeftNoted(n, b, caseSensitive)) && Erase(LeftNoted(n, b, caseSensitive)) == Left(Erase(n), b, caseSensitive)
    decreases Size(Erase(n)), 0, 0
  {
    match (n, b)
    case (Items(x), Array(y)) => EraseLeftItems(x, y, caseSensitive);
    case (Members(x, tail), Object(y)) =>
      var s := SortedMembers(x, tail, caseSensitive);
      EraseSorted(x, tail, caseSensitive);
      SortedSize(EraseMembers(x), caseSensitive);
      EraseLeftMembers(s.members, Sort(y, caseSensitive), caseSensitive);
    case (_, _) =>
  }

  lemma {:induction false} EraseLeftItems(a: seq<Noted>, b: seq<Json>, caseSensitive: bool)
    requires forall x :: x in a ==> Proper(x)
    ensures forall x :: x in LeftNotedItems(a, b, caseSensitive) ==> Proper(x)
    ensures EraseItems(LeftNotedItems(a, b, caseSensitive)) == LeftItems(EraseItems(a), b, caseSensitive)
    decreases ItemsSize(EraseItems(a)), 1, |a|
  {
    if a != [] && b != [] {
      EraseTail(a);
      EraseLeft(a[0], b[0], caseSensitive);
      EraseLeftItems(a[1..], b[1..], caseSensitive);
      EraseTail(LeftNotedItems(a, b, caseSensitive));
    }
  }

  lemma {:induction false} EraseLeftMembers(a: seq<Member<Noted>>, b: seq<Member<Json>>, caseSensitive: bool)
    requires forall m :: m in a ==> Proper(m.value)
    ensures forall m :: m in LeftNotedMembers(a, b, caseSensitive) ==> Proper(m.value)
    ensures EraseMembers(LeftNotedMembers(a, b, caseSensitive)) == LeftMembers(EraseMembers(a), b, caseSensitive)
    decreases MembersSize(EraseMembers(a)), 1, |a|
  {
    if a != [] && b != [] && Norm(caseSensitive, a[0].key) == Norm(caseSensitive, b[0].key) {
      EraseMembersTail(a);
      EraseLeft(a[0].value, b[0].value, caseSensitive);
      EraseLeftMembers(a[1..], b[1..], caseSensitive);
      EraseMembersTail(LeftNotedMembers(a, b, caseSensitive));
    }
  }

  /** In every object of the tree, sorting leaves the first member first and the last one last. */
  predicate EndsKept(j: Json, caseSensitive: bool)
    decreases j
  {
    match j
    case Array(items) => forall x | x in items :: EndsKept(x, caseSensitive)
    case Object(members) => KeepsEnds(Numbered(members), caseSensitive) && forall m | m in members :: EndsKept(m.value, caseSensitive)
    case _ => true
  }

  lemma EndsKeptMembers(members: seq<Member<Noted>>, caseSensitive: bool)
    requires EndsKept(Object(EraseMembers(members)), caseSensitive)
    ensures KeepsEnds(Numbered(members), caseSensitive)
    ensures forall m :: m in members ==> EndsKept(Erase(m.value), caseSensitive)
  {
    assert Numbered(members) == Numbered(EraseMembers(members));
    forall m | m in members ensures EndsKept(Erase(m.value), caseSensitive) {
      var i :| 0 <= i < |members| && members[i] == m;
      assert EraseMembers(members)[i] in EraseMembers(members);
    }
  }

  /** So comparing keeps such a tree well. */
  lemma {:induction false} LeftWell(n: Noted, b: Json, caseSensitive: bool)
    requires Proper(n) && WellKept(n) && EndsKept(Erase(n), caseSensitive)
    ensures WellKept(LeftNoted(n, b, caseSensitive))
    decreases Size(Erase(n)), 0, 0
  {
    match (n, b)
    case (Items(x), Array(y)) =>
      forall i | 0 <= i < |x| ensures EndsKept(Erase(x[i]), caseSensitive) {
        assert EraseItems(x)[i] in EraseItems(x);
      }
      LeftWellItems(x, y, caseSensitive);
    case (Members(x, tail), Object(y)) =>
      var s := SortedMembers(x, tail, caseSensitive);
      EraseSorted(x, tail, caseSensitive);
      SortedSize(EraseMembers(x), caseSensitive);
      EndsKeptMembers(x, caseSensitive);
      SortedWell(x, tail, caseSensitive);
      LeftWellMembers(s.members, Sort(y, caseSensitive), caseSensitive);
    case (_, _) =>
  }

  lemma {:induction false} LeftWellItems(a: seq<Noted>, b: seq<Json>, caseSensitive: bool)
    requires forall x :: x in a ==> Proper(x) && WellKept(x) && EndsKept(Erase(x), caseSensitive)
    ensures forall x :: x in LeftNotedItems(a, b, caseSensitive) ==> WellKept(x)
    decreases ItemsSize(EraseItems(a)), 1, |a|
  {
    if a != [] && b != [] {
      EraseTail(a);
      LeftWell(a[0], b[0], caseSensitive);
      LeftWellItems(a[1..], b[1..], caseSensitive);
    }
  }

  lemma {:induction false} LeftWellMembers(a: seq<Member<Noted>>, b: seq<Member<Json>>, caseSensitive: bool)
    requires forall m :: m in a ==> Proper(m.value) && WellKept(m.value) && EndsKept(Erase(m.value), caseSensitive)
    ensures forall m :: m in LeftNotedMembers(a, b, caseSensitive) ==> WellKept(m.value)
    decreases MembersSize(EraseMembers(a)), 1, |a|
  {
    if a != [] && b != [] && Norm(caseSensitive, a[0].key) == Norm(caseSensitive, b[0].key) {
      EraseMembersTail(a);
      LeftWell(a[0].value, b[0].value, caseSensitive);
      LeftWellMembers(a[1..], b[1..], caseSensitive);
    }
  }
}
