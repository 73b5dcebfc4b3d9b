/**
 The two tree comparisons: compare_json of cJSON_Utils sorts both objects and walks them in step, cJSON_Compare looks every
 member up in the other object. Both decide whether the trees have the same meaning.
 */
module JsonCompare {
  import opened CStrings
  import opened JsonTrees
  import opened MergeSort

  // ---------- objects in sorted order ----------

  lemma DistinctSortsStrictly(members: seq<Member<Json>>, caseSensitive: bool)
    requires DistinctUnder(members, caseSensitive)
    ensures StrictlyIncreasing(Sort(members, caseSensitive), caseSensitive)
    ensures Fields(Sort(members, caseSensitive), caseSensitive) == Fields(members, caseSensitive)
    ensures forall m :: m in Sort(members, caseSensitive) ==> m in members
  {
    var s := Sort(members, caseSensitive);
    SortPermutes(members, caseSensitive);
    SortOrders(members, caseSensitive);
    FieldsReorder(members, s, caseSensitive);
    forall i, j | 0 <= i < j < |s| ensures Before(s[i], s[j], caseSensitive) {
      assert !Before(s[j], s[i], caseSensitive);
      LessTotal(Norm(caseSensitive, s[i].key), Norm(caseSensitive, s[j].key));
    }
    forall m | m in s ensures m in members {
      assert m in multiset(members);
    }
  }

  /** The two lists agree position by position. */
  predicate Agree(a: seq<Member<Json>>, b: seq<Member<Json>>, caseSensitive: bool) {
    && |a| == |b|
    && forall i :: 0 <= i < |a| ==> AgreeAt(a[i], b[i], caseSensitive)
  }

  predicate AgreeAt(x: Member<Json>, y: Member<Json>, caseSensitive: bool) {
    && Norm(caseSensitive, x.key) == Norm(caseSensitive, y.key)
    && Meaning(x.value, caseSensitive) == Meaning(y.value, caseSensitive)
  }

  lemma {:induction false} AbsentBelow(b: seq<Member<Json>>, k: string, caseSensitive: bool)
    requires StrictlyIncreasing(b, caseSensitive)
    requires b != [] ==> Less(k, Norm(caseSensitive, b[0].key))
    ensures k !in Fields(b, caseSensitive)
  {
    if k in Fields(b, caseSensitive) {
      var i := FieldsOnly(b, k, caseSensitive);
      var first := Norm(caseSensitive, b[0].key);
      LessTotal(k, k);
      if i > 0 {
        assert Before(b[0], b[i], caseSensitive);
        LessTransitive(k, first, k);
      }
      assert false;
    }
  }

  lemma TailIncreasing(a: seq<Member<Json>>, caseSensitive: bool)
    requires StrictlyIncreasing(a, caseSensitive) && a != []
    ensures StrictlyIncreasing(a[1..], caseSensitive)
    ensures Norm(caseSensitive, a[0].key) !in Fields(a[1..], caseSensitive)
  {
    if |a| > 1 {
      assert Before(a[0], a[1], caseSensitive);
    }
    AbsentBelow(a[1..], Norm(caseSensitive, a[0].key), caseSensitive);
  }

  lemma MapHeads<K, V>(f: map<K, V>, g: map<K, V>, k: K, v: V, w: V)
    requires k !in f && k !in g
    ensures f[k := v] == g[k := w] <==> v == w && f == g
  {
    if f[k := v] == g[k := w] {
      assert f == f[k := v] - {k} && g == g[k := w] - {k};
      assert f[k := v][k] == g[k := w][k];
    }
  }

  /** Sorted lists mean the same exactly when they agree position by position. */
  lemma {:induction false} SortedFields(a: seq<Member<Json>>, b: seq<Member<Json>>, caseSensitive: bool)
    requires StrictlyIncreasing(a, caseSensitive) && StrictlyIncreasing(b, caseSensitive)
    ensures Fields(a, caseSensitive) == Fields(b, caseSensitive) <==> Agree(a, b, caseSensitive)
  {
    if a != [] && b != [] {
      var ka, kb := Norm(caseSensitive, a[0].key), Norm(caseSensitive, b[0].key);
      TailIncreasing(a, caseSensitive);
      TailIncreasing(b, caseSensitive);
      LessTotal(ka, kb);
      if ka == kb {
        SortedFields(a[1..], b[1..], caseSensitive);
        MapHeads(Fields(a[1..], caseSensitive), Fields(b[1..], caseSensitive), ka,
                 Meaning(a[0].value, caseSensitive), Meaning(b[0].value, caseSensitive));
        AgreeHeads(a, b, caseSensitive);
      } else if Less(ka, kb) {
        AbsentBelow(b, ka, caseSensitive);
        assert ka in Fields(a, caseSensitive);
        assert Agree(a, b, caseSensitive) ==> AgreeAt(a[0], b[0], caseSensitive);
      } else {
        AbsentBelow(a, kb, caseSensitive);
        assert kb in Fields(b, caseSensitive);
        assert Agree(a, b, caseSensitive) ==> AgreeAt(a[0], b[0], caseSensitive);
      }
    } else if a != [] {
      assert Norm(caseSensitive, a[0].key) in Fields(a, caseSensitive);
    } else if b != [] {
      assert Norm(caseSensitive, b[0].key) in Fields(b, caseSensitive);
    }
  }

  lemma AgreeHeads(a: seq<Member<Json>>, b: seq<Member<Json>>, caseSensitive: bool)
    requires a != [] && b != []
    ensures Agree(a, b, caseSensitive) <==> AgreeAt(a[0], b[0], caseSensitive) && Agree(a[1..], b[1..], caseSensitive)
  {
    if AgreeAt(a[0], b[0], caseSensitive) && Agree(a[1..], b[1..], caseSensitive) {
      forall i | 0 <= i < |a| ensures AgreeAt(a[i], b[i], caseSensitive) {
        if i > 0 {
          assert AgreeAt(a[1..][i - 1], b[1..][i - 1], caseSensitive);
        }
      }
    }
    if Agree(a, b, caseSensitive) {
      forall i | 0 <= i < |a| - 1 ensures AgreeAt(a[1..][i], b[1..][i], caseSensitive) {
        assert AgreeAt(a[i + 1], b[i + 1], caseSensitive);
      }
    }
  }

  // ---------- how large a tree is ----------

  function Size(j: Json): nat
    decreases j
  {
    match j
    case Array(items) => 1 + ItemsSize(items)
    case Object(members) => 1 + MembersSize(members)
    case _ => 1
  }

  function ItemsSize(items: seq<Json>): nat
    decreases items
  {
    if items == [] then 0 else Size(items[0]) + ItemsSize(items[1..])
  }

  function MembersSize(members: seq<Member<Json>>): nat
    decreases members
  {
    if members == [] then 0 else Size(members[0].value) + MembersSize(members[1..])
  }

  lemma ItemSize(items: seq<Json>, x: Json)
    requires x in items
    ensures Size(x) <= ItemsSize(items)
  {
  }

  lemma MemberSize(members: seq<Member<Json>>, m: Member<Json>)
    requires m in members
    ensures Size(m.value) <= MembersSize(members)
  {
  }

  lemma {:induction false} SortedSize(members: seq<Member<Json>>, cs: bool)
    ensures MembersSize(Sort(members, cs)) == MembersSize(members)
    decreases |members|
  {
    if |members| > 1 && !Ascending(members, cs) {
      var middle := (|members| + 1) / 2;
      var first, second := members[..middle], members[middle..];
      SortedSize(first, cs);
      SortedSize(second, cs);
      MergedSize(Sort(first, cs), Sort(second, cs), cs);
      HalvesSize(members, middle, first, second);
    }
  }

  lemma HalvesSize(members: seq<Member<Json>>, middle: nat, first: seq<Member<Json>>, second: seq<Member<Json>>)
    requires middle <= |members| && first == members[..middle] && second == members[middle..]
    ensures MembersSize(members) == MembersSize(first) + MembersSize(second)
  {
    JoinedSize(first, second);
    assert members == first + second;
  }

  lemma {:induction false} JoinedSize(a: seq<Member<Json>>, b: seq<Member<Json>>)
    ensures MembersSize(a + b) == MembersSize(a) + MembersSize(b)
  {
    if a == [] {
      assert a + b == b;
    } else {
      assert (a + b)[1..] == a[1..] + b;
      JoinedSize(a[1..], b);
    }
  }

  lemma {:induction false} MergedSize(a: seq<Member<Json>>, b: seq<Member<Json>>, cs: bool)
    ensures MembersSize(Merge(a, b, cs)) == MembersSize(a) + MembersSize(b)
    decreases |a| + |b|
  {
    if a != [] && b != [] {
      if Before(a[0], b[0], cs) {
        MergedSize(a[1..], b, cs);
        assert Merge(a, b, cs)[1..] == Merge(a[1..], b, cs);
      } else {
        MergedSize(a, b[1..], cs);
        assert Merge(a, b, cs)[1..] == Merge(a, b[1..], cs);
      }
    }
  }

  // ---------- compare_json ----------

  lemma SortedMember(members: seq<Member<Json>>, caseSensitive: bool, i: nat)
    requires i < |members|
    ensures Sort(members, caseSensitive)[i] in members
  {
    SortPermutes(members, caseSensitive);
    assert Sort(members, caseSensitive)[i] in multiset(members);
  }

  /** What compare_json answers: arrays element by element, objects in sorted order member by member. */
  predicate JsonEqual(a: Json, b: Json, caseSensitive: bool)
    decreases a
  {
    match (a, b)
    case (Array(x), Array(y)) =>
      |x| == |y| && forall i | 0 <= i < |x| :: JsonEqual(x[i], y[i], caseSensitive)
    case (Object(x), Object(y)) =>
      var s, t := Sort(x, caseSensitive), Sort(y, caseSensitive);
      |s| == |t| && forall i | 0 <= i < |s| ::
        && Norm(caseSensitive, s[i].key) == Norm(caseSensitive, t[i].key)
        && (SortedMember(x, caseSensitive, i); JsonEqual(s[i].value, t[i].value, caseSensitive))
    case (_, _) => a == b
  }

  /** What compare_json leaves of `a` when it compares it with `b`: the objects it comes across are sorted, up to the first
      difference. */
  function Left(a: Json, b: Json, caseSensitive: bool): Json
    decreases Size(a), 0, 0
  {
    match (a, b)
    case (Array(x), Array(y)) => Array(LeftItems(x, y, caseSensitive))
    case (Object(x), Object(y)) =>
      SortedSize(x, caseSensitive);
      Object(LeftMembers(Sort(x, caseSensitive), Sort(y, caseSensitive), caseSensitive))
    case (_, _) => a
  }

  function LeftItems(a: seq<Json>, b: seq<Json>, caseSensitive: bool): (r: seq<Json>)
    ensures |r| == |a|
    decreases ItemsSize(a), 1, |a|
  {
    if a == [] || b == [] then a
    else
      [Left(a[0], b[0], caseSensitive)]
      + if JsonEqual(a[0], b[0], caseSensitive) then LeftItems(a[1..], b[1..], caseSensitive) else a[1..]
  }

  /** The walk in step over two sorted objects. */
  function LeftMembers(a: seq<Member<Json>>, b: seq<Member<Json>>, caseSensitive: bool): (r: seq<Member<Json>>)
    ensures |r| == |a|
    decreases MembersSize(a), 1, |a|
  {
    if a == [] || b == [] || Norm(caseSensitive, a[0].key) != Norm(caseSensitive, b[0].key) then a
    else
      [Member(a[0].key, Left(a[0].value, b[0].value, caseSensitive))]
      + if JsonEqual(a[0].value, b[0].value, caseSensitive) then LeftMembers(a[1..], b[1..], caseSensitive) else a[1..]
  }

  predicate EqualAt(x: Member<Json>, y: Member<Json>, caseSensitive: bool) {
    Norm(caseSensitive, x.key) == Norm(caseSensitive, y.key) && JsonEqual(x.value, y.value, caseSensitive)
  }

  lemma {:induction false} EqualBothWays(a: Json, b: Json, caseSensitive: bool)
    ensures JsonEqual(a, b, caseSensitive) <==> JsonEqual(b, a, caseSensitive)
    decreases a
  {
    match (a, b)
    case (Array(x), Array(y)) =>
      if |x| == |y| {
        forall i | 0 <= i < |x| ensures JsonEqual(x[i], y[i], caseSensitive) <==> JsonEqual(y[i], x[i], caseSensitive) {
          EqualBothWays(x[i], y[i], caseSensitive);
        }
      }
    case (Object(x), Object(y)) =>
      var s, t := Sort(x, caseSensitive), Sort(y, caseSensitive);
      JsonEqualObjects(x, y, caseSensitive);
      JsonEqualObjects(y, x, caseSensitive);
      if |s| == |t| {
        forall i | 0 <= i < |s| ensures EqualAt(s[i], t[i], caseSensitive) <==> EqualAt(t[i], s[i], caseSensitive) {
          SortedMember(x, caseSensitive, i);
          EqualBothWays(s[i].value, t[i].value, caseSensitive);
        }
      }
    case (_, _) =>
  }

  lemma Tails<T>(s: seq<T>, i: nat)
    requires i < |s|
    ensures s[i..] != [] && s[i..][0] == s[i] && s[i..][1..] == s[i + 1..]
  {
  }

  lemma Grown<T>(done: seq<T>, x: T, rest: seq<T>)
    ensures done + ([x] + rest) == done + [x] + rest
  {
  }

  predicate EqualUpTo(a: seq<Json>, b: seq<Json>, i: nat, caseSensitive: bool) {
    i <= |a| && i <= |b| && forall k :: 0 <= k < i ==> JsonEqual(a[k], b[k], caseSensitive)
  }

  predicate MatchUpTo(a: seq<Member<Json>>, b: seq<Member<Json>>, i: nat, caseSensitive: bool) {
    i <= |a| && i <= |b| && forall k :: 0 <= k < i ==> EqualAt(a[k], b[k], caseSensitive)
  }

  /** The walk over the first `i` elements is done and has left `done` of them. */
  predicate ItemsLeft(a: seq<Json>, b: seq<Json>, i: nat, done: seq<Json>, caseSensitive: bool) {
    i <= |a| && i <= |b| && done + LeftItems(a[i..], b[i..], caseSensitive) == LeftItems(a, b, caseSensitive)
  }

  lemma ItemsLeftNext(a: seq<Json>, b: seq<Json>, i: nat, done: seq<Json>, x: Json, rest: seq<Json>, same: bool, caseSensitive: bool)
    requires i < |a| && i < |b| && ItemsLeft(a, b, i, done, caseSensitive)
    requires LeftItems(a[i..], b[i..], caseSensitive) == [x] + rest
    requires rest == if same then LeftItems(a[i..][1..], b[i..][1..], caseSensitive) else a[i..][1..]
    ensures if same then ItemsLeft(a, b, i + 1, done + [x], caseSensitive)
            else done + [x] + a[i + 1..] == LeftItems(a, b, caseSensitive)
  {
    Tails(a, i);
    Tails(b, i);
    Grown(done, x, rest);
  }

  lemma ItemsLeftEnd(a: seq<Json>, b: seq<Json>, i: nat, done: seq<Json>, caseSensitive: bool)
    requires ItemsLeft(a, b, i, done, caseSensitive) && (i == |a| || i == |b|)
    ensures done + a[i..] == LeftItems(a, b, caseSensitive)
  {
  }

  /** The walk over the first `i` members is done and has left `done` of them. */
  predicate MembersLeft(a: seq<Member<Json>>, b: seq<Member<Json>>, i: nat, done: seq<Member<Json>>, caseSensitive: bool) {
    i <= |a| && i <= |b| && done + LeftMembers(a[i..], b[i..], caseSensitive) == LeftMembers(a, b, caseSensitive)
  }

  lemma MembersLeftNext(a: seq<Member<Json>>, b: seq<Member<Json>>, i: nat, done: seq<Member<Json>>, x: Member<Json>,
                        rest: seq<Member<Json>>, same: bool, caseSensitive: bool)
    requires i < |a| && i < |b| && MembersLeft(a, b, i, done, caseSensitive)
    requires LeftMembers(a[i..], b[i..], caseSensitive) == [x] + rest
    requires rest == if same then LeftMembers(a[i..][1..], b[i..][1..], caseSensitive) else a[i..][1..]
    ensures if same then MembersLeft(a, b, i + 1, done + [x], caseSensitive)
            else done + [x] + a[i + 1..] == LeftMembers(a, b, caseSensitive)
  {
    Tails(a, i);
    Tails(b, i);
    Grown(done, x, rest);
  }

  lemma MembersLeftEnd(a: seq<Member<Json>>, b: seq<Member<Json>>, i: nat, done: seq<Member<Json>>, caseSensitive: bool)
    requires MembersLeft(a, b, i, done, caseSensitive) && (i == |a| || i == |b|)
    ensures done + a[i..] == LeftMembers(a, b, caseSensitive)
  {
  }

  /** One element of each of two arrays, with what the walk leaves behind them. */
  method CompareItem(x: Json, y: Json, caseSensitive: bool, ghost a: seq<Json>, ghost b: seq<Json>)
    returns (same: bool, x': Json, y': Json, ghost rest: seq<Json>, ghost rest': seq<Json>)
    requires a != [] && b != [] && a[0] == x && b[0] == y
    ensures same <==> JsonEqual(x, y, caseSensitive)
    ensures LeftItems(a, b, caseSensitive) == [x'] + rest && LeftItems(b, a, caseSensitive) == [y'] + rest'
    ensures rest == if same then LeftItems(a[1..], b[1..], caseSensitive) else a[1..]
    ensures rest' == if same then LeftItems(b[1..], a[1..], caseSensitive) else b[1..]
    decreases Size(x), 3
  {
    EqualBothWays(x, y, caseSensitive);
    same, x', y' := CompareJson(x, y, caseSensitive);
    rest := if same then LeftItems(a[1..], b[1..], caseSensitive) else a[1..];
    rest' := if same then LeftItems(b[1..], a[1..], caseSensitive) else b[1..];
  }

  /** compare_json on the elements of two arrays. */
  method CompareItems(a: seq<Json>, b: seq<Json>, caseSensitive: bool) returns (equal: bool, a': seq<Json>, b': seq<Json>)
    ensures equal <==> |a| == |b| && EqualUpTo(a, b, |a|, caseSensitive)
    ensures a' == LeftItems(a, b, caseSensitive) && b' == LeftItems(b, a, caseSensitive)
    decreases ItemsSize(a), 4
  {
    var i := 0;
    a', b' := [], [];
    assert a[0..] == a && b[0..] == b;
    while i < |a| && i < |b|
      invariant EqualUpTo(a, b, i, caseSensitive)
      invariant ItemsLeft(a, b, i, a', caseSensitive) && ItemsLeft(b, a, i, b', caseSensitive)
    {
      var same, x, y;
      ghost var rest, rest';
      ItemSize(a, a[i]);
      same, x, y, rest, rest' := CompareItem(a[i], b[i], caseSensitive, a[i..], b[i..]);
      ItemsLeftNext(a, b, i, a', x, rest, same, caseSensitive);
      ItemsLeftNext(b, a, i, b', y, rest', same, caseSensitive);
      a', b' := a' + [x], b' + [y];
      if !same {
        return false, a' + a[i + 1..], b' + b[i + 1..];
      }
      i := i + 1;
    }
    ItemsLeftEnd(a, b, i, a', caseSensitive);
    ItemsLeftEnd(b, a, i, b', caseSensitive);
    return i == |a| && i == |b|, a' + a[i..], b' + b[i..];
  }

  /** One member of each of two sorted objects, with what the walk leaves behind them. */
  method CompareMember(x: Member<Json>, y: Member<Json>, caseSensitive: bool, ghost a: seq<Member<Json>>, ghost b: seq<Member<Json>>)
    returns (same: bool, x': Member<Json>, y': Member<Json>, ghost rest: seq<Member<Json>>, ghost rest': seq<Member<Json>>)
    requires a != [] && b != [] && a[0] == x && b[0] == y
    ensures same <==> EqualAt(x, y, caseSensitive)
    ensures LeftMembers(a, b, caseSensitive) == [x'] + rest && LeftMembers(b, a, caseSensitive) == [y'] + rest'
    ensures rest == if same then LeftMembers(a[1..], b[1..], caseSensitive) else a[1..]
    ensures rest' == if same then LeftMembers(b[1..], a[1..], caseSensitive) else b[1..]
    decreases Size(x.value), 3
  {
    rest, rest' := a[1..], b[1..];
    assert a == [a[0]] + a[1..] && b == [b[0]] + b[1..];
    var diff := CompareStrings(x.key, y.key, caseSensitive);
    if diff != 0 {
      return false, x, y, rest, rest';
    }
    EqualBothWays(x.value, y.value, caseSensitive);
    var v, w;
    same, v, w := CompareJson(x.value, y.value, caseSensitive);
    x', y' := Member(x.key, v), Member(y.key, w);
    if same {
      rest, rest' := LeftMembers(rest, rest', caseSensitive), LeftMembers(rest', rest, caseSensitive);
    }
  }

  /** The walk in step over two sorted objects. */
  method CompareMembers(a: seq<Member<Json>>, b: seq<Member<Json>>, caseSensitive: bool)
    returns (equal: bool, a': seq<Member<Json>>, b': seq<Member<Json>>)
    ensures equal <==> |a| == |b| && MatchUpTo(a, b, |a|, caseSensitive)
    ensures a' == LeftMembers(a, b, caseSensitive) && b' == LeftMembers(b, a, caseSensitive)
    decreases MembersSize(a), 4
  {
    var i := 0;
    a', b' := [], [];
    assert a[0..] == a && b[0..] == b;
    while i < |a| && i < |b|
      invariant MatchUpTo(a, b, i, caseSensitive)
      invariant MembersLeft(a, b, i, a', caseSensitive) && MembersLeft(b, a, i, b', caseSensitive)
    {
      var same, x, y;
      ghost var rest, rest';
      MemberSize(a, a[i]);
      same, x, y, rest, rest' := CompareMember(a[i], b[i], caseSensitive, a[i..], b[i..]);
      MembersLeftNext(a, b, i, a', x, rest, same, caseSensitive);
      MembersLeftNext(b, a, i, b', y, rest', same, caseSensitive);
      a', b' := a' + [x], b' + [y];
      if !same {
        return false, a' + a[i + 1..], b' + b[i + 1..];
      }
      i := i + 1;
    }
    MembersLeftEnd(a, b, i, a', caseSensitive);
    MembersLeftEnd(b, a, i, b', caseSensitive);
    return i == |a| && i == |b|, a' + a[i..], b' + b[i..];
  }

  /** compare_json: the answer, and the two trees as they are left, with their objects sorted as far as it went. */
  method CompareJson(a: Json, b: Json, caseSensitive: bool) returns (equal: bool, a': Json, b': Json)
    ensures equal <==> JsonEqual(a, b, caseSensitive)
    ensures a' == Left(a, b, caseSensitive) && b' == Left(b, a, caseSensitive)
    decreases Size(a), 2
  {
    match (a, b) {
      case (Array(x), Array(y)) =>
        var x', y';
        equal, x', y' := CompareItems(x, y, caseSensitive);
        a', b' := Array(x'), Array(y');
      case (Object(x), Object(y)) =>
        JsonEqualObjects(x, y, caseSensitive);
        SortedSize(x, caseSensitive);
        var s, t;
        equal, s, t := CompareMembers(Sort(x, caseSensitive), Sort(y, caseSensitive), caseSensitive);
        a', b' := Object(s), Object(t);
      case (_, _) =>
        equal, a', b' := a == b, a, b;
    }
  }

  predicate EqualMembers(s: seq<Member<Json>>, t: seq<Member<Json>>, caseSensitive: bool) {
    |s| == |t| && forall i :: 0 <= i < |s| ==> EqualAt(s[i], t[i], caseSensitive)
  }

  lemma JsonEqualObjects(x: seq<Member<Json>>, y: seq<Member<Json>>, caseSensitive: bool)
    ensures JsonEqual(Object(x), Object(y), caseSensitive) <==>
            EqualMembers(Sort(x, caseSensitive), Sort(y, caseSensitive), caseSensitive)
  {
    var s, t := Sort(x, caseSensitive), Sort(y, caseSensitive);
    if EqualMembers(s, t, caseSensitive) {
      assert forall i :: 0 <= i < |s| ==> EqualAt(s[i], t[i], caseSensitive);
    }
  }

  /** compare_json decides equality up to member order, for all trees with distinct sibling names. */
  lemma {:induction false} JsonEqualIffSameMeaning(a: Json, b: Json, caseSensitive: bool)
    requires DistinctSiblings(a, caseSensitive) && DistinctSiblings(b, caseSensitive)
    ensures JsonEqual(a, b, caseSensitive) <==> Meaning(a, caseSensitive) == Meaning(b, caseSensitive)
    decreases a
  {
    match (a, b)
    case (Array(x), Array(y)) =>
      if |x| == |y| {
        forall i | 0 <= i < |x|
          ensures JsonEqual(x[i], y[i], caseSensitive) <==> Elements(x, caseSensitive)[i] == Elements(y, caseSensitive)[i]
        {
          JsonEqualIffSameMeaning(x[i], y[i], caseSensitive);
        }
      }
    case (Object(x), Object(y)) =>
      ObjectsEqualIffSameFields(x, y, caseSensitive);
    case (_, _) =>
  }

  lemma {:induction false} ObjectsEqualIffSameFields(x: seq<Member<Json>>, y: seq<Member<Json>>, caseSensitive: bool)
    requires DistinctMembers(x, caseSensitive) && DistinctMembers(y, caseSensitive)
    ensures JsonEqual(Object(x), Object(y), caseSensitive) <==> Fields(x, caseSensitive) == Fields(y, caseSensitive)
    decreases x
  {
    var s, t := Sort(x, caseSensitive), Sort(y, caseSensitive);
    DistinctSortsStrictly(x, caseSensitive);
    DistinctSortsStrictly(y, caseSensitive);
    SortedFields(s, t, caseSensitive);
    JsonEqualObjects(x, y, caseSensitive);
    if |s| == |t| {
      forall i | 0 <= i < |s|
        ensures EqualAt(s[i], t[i], caseSensitive) <==> AgreeAt(s[i], t[i], caseSensitive)
      {
        SortedMember(x, caseSensitive, i);
        SortedMember(y, caseSensitive, i);
        JsonEqualIffSameMeaning(s[i].value, t[i].value, caseSensitive);
      }
    }
  }

  // ---------- comparing leaves the meaning alone ----------

  lemma SortedSame(members: seq<Member<Json>>, mode: bool, caseSensitive: bool)
    requires DistinctUnder(members, caseSensitive)
    ensures DistinctUnder(Sort(members, mode), caseSensitive)
    ensures Fields(Sort(members, mode), caseSensitive) == Fields(members, caseSensitive)
    ensures forall m :: m in Sort(members, mode) <==> m in members
  {
    var s := Sort(members, mode);
    SortPermutes(members, mode);
    FieldsReorder(members, s, caseSensitive);
    forall m ensures m in s <==> m in members {
      if m in s {
        WasIn(members, m, mode);
      } else if m in members {
        StaysIn(members, m, mode);
      }
    }
  }

  /** The two lists have the same names, and values of the same meaning. */
  predicate Alike(a: seq<Member<Json>>, b: seq<Member<Json>>, caseSensitive: bool) {
    |a| == |b| && forall i :: 0 <= i < |a| ==> a[i].key == b[i].key && Meaning(a[i].value, caseSensitive) == Meaning(b[i].value, caseSensitive)
  }

  lemma {:induction false} AlikeFields(a: seq<Member<Json>>, b: seq<Member<Json>>, caseSensitive: bool)
    requires Alike(a, b, caseSensitive)
    ensures Fields(a, caseSensitive) == Fields(b, caseSensitive)
  {
    if a != [] {
      AlikeFields(a[1..], b[1..], caseSensitive);
    }
  }

  /** A tree with distinct sibling names means the same after it was compared with any other in either
      mode. */
  lemma {:induction false} LeftMeans(a: Json, b: Json, mode: bool, caseSensitive: bool)
    requires DistinctSiblings(a, caseSensitive)
    ensures Meaning(Left(a, b, mode), caseSensitive) == Meaning(a, caseSensitive)
    ensures DistinctSiblings(Left(a, b, mode), caseSensitive)
    decreases Size(a), 0, 0
  {
    match (a, b)
    case (Array(x), Array(y)) =>
      LeftItemsMean(x, y, mode, caseSensitive);
    case (Object(x), Object(y)) =>
      var s, t := Sort(x, mode), Sort(y, mode);
      SortedSize(x, mode);
      assert DistinctMembers(x, caseSensitive);
      SortedSame(x, mode, caseSensitive);
      LeftMembersMean(s, t, mode, caseSensitive);
      var r := LeftMembers(s, t, mode);
      AlikeFields(r, s, caseSensitive);
      assert DistinctMembers(r, caseSensitive);
    case (_, _) =>
  }

  lemma {:induction false} LeftItemsMean(a: seq<Json>, b: seq<Json>, mode: bool, caseSensitive: bool)
    requires forall x :: x in a ==> DistinctSiblings(x, caseSensitive)
    ensures Elements(LeftItems(a, b, mode), caseSensitive) == Elements(a, caseSensitive)
    ensures forall x :: x in LeftItems(a, b, mode) ==> DistinctSiblings(x, caseSensitive)
    decreases ItemsSize(a), 1, |a|
  {
    if a != [] && b != [] {
      LeftMeans(a[0], b[0], mode, caseSensitive);
      LeftItemsMean(a[1..], b[1..], mode, caseSensitive);
      var r, e := LeftItems(a, b, mode), Elements(a, caseSensitive);
      assert a == [a[0]] + a[1..];
      forall i | 0 <= i < |a| ensures Meaning(r[i], caseSensitive) == e[i] && DistinctSiblings(r[i], caseSensitive) {
        if i > 0 {
          assert r[i] in r[1..] && a[1..][i - 1] == a[i];
          assert Elements(r[1..], caseSensitive)[i - 1] == Elements(a[1..], caseSensitive)[i - 1];
        }
      }
    }
  }

  lemma {:induction false} LeftMembersMean(a: seq<Member<Json>>, b: seq<Member<Json>>, mode: bool, caseSensitive: bool)
    requires forall m :: m in a ==> DistinctSiblings(m.value, caseSensitive)
    ensures Alike(LeftMembers(a, b, mode), a, caseSensitive)
    ensures forall m :: m in LeftMembers(a, b, mode) ==> DistinctSiblings(m.value, caseSensitive)
    decreases MembersSize(a), 1, |a|
  {
    if a != [] && b != [] {
      assert a[0] in a;
      LeftMeans(a[0].value, b[0].value, mode, caseSensitive);
      LeftMembersMean(a[1..], b[1..], mode, caseSensitive);
    }
  }

  lemma {:induction false} LeftSize(a: Json, b: Json, mode: bool)
    ensures Size(Left(a, b, mode)) == Size(a)
    decreases Size(a), 0, 0
  {
    match (a, b)
    case (Array(x), Array(y)) =>
      LeftItemsSize(x, y, mode);
    case (Object(x), Object(y)) =>
      SortedSize(x, mode);
      LeftMembersSize(Sort(x, mode), Sort(y, mode), mode);
    case (_, _) =>
  }

  lemma {:induction false} LeftItemsSize(a: seq<Json>, b: seq<Json>, mode: bool)
    ensures ItemsSize(LeftItems(a, b, mode)) == ItemsSize(a)
    decreases ItemsSize(a), 1, |a|
  {
    if a != [] && b != [] {
      LeftSize(a[0], b[0], mode);
      LeftItemsSize(a[1..], b[1..], mode);
      var r := LeftItems(a, b, mode);
      assert r[1..] == if JsonEqual(a[0], b[0], mode) then LeftItems(a[1..], b[1..], mode) else a[1..];
    }
  }

  lemma {:induction false} LeftMembersSize(a: seq<Member<Json>>, b: seq<Member<Json>>, mode: bool)
    ensures MembersSize(LeftMembers(a, b, mode)) == MembersSize(a)
    decreases MembersSize(a), 1, |a|
  {
    if a != [] && b != [] && Norm(mode, a[0].key) == Norm(mode, b[0].key) {
      LeftSize(a[0].value, b[0].value, mode);
      LeftMembersSize(a[1..], b[1..], mode);
      var r := LeftMembers(a, b, mode);
      assert r[1..] == if JsonEqual(a[0].value, b[0].value, mode) then LeftMembers(a[1..], b[1..], mode) else a[1..];
    }
  }

  // ---------- cJSON_Compare ----------

  predicate SameMeaning(a: Json, b: Json, caseSensitive: bool) {
    Meaning(a, caseSensitive) == Meaning(b, caseSensitive) && !HasInvalid(a)
  }

  lemma {:induction false} InvalidShows(a: Json, b: Json, caseSensitive: bool)
    requires DistinctSiblings(a, caseSensitive) && DistinctSiblings(b, caseSensitive)
    requires Meaning(a, caseSensitive) == Meaning(b, caseSensitive) && HasInvalid(a)
    ensures HasInvalid(b)
    decreases a
  {
    match a
    case Array(items) =>
      var x :| x in items && HasInvalid(x);
      var i :| 0 <= i < |items| && items[i] == x;
      assert Elements(items, caseSensitive)[i] == Elements(b.items, caseSensitive)[i];
      InvalidShows(x, b.items[i], caseSensitive);
    case Object(members) =>
      var m :| m in members && HasInvalid(m.value);
      var i :| 0 <= i < |members| && members[i] == m;
      FieldsAt(members, i, caseSensitive);
      var j := FieldsOnly(b.members, Norm(caseSensitive, m.key), caseSensitive);
      assert b.members[j] in b.members;
      InvalidShows(m.value, b.members[j].value, caseSensitive);
    case _ =>
  }

  /** get_object_item. */
  method GetObjectItem(members: seq<Member<Json>>, name: string, caseSensitive: bool) returns (i: nat)
    ensures i == KeyIndex(members, name, caseSensitive)
  {
    i := 0;
    assert members[0..] == members;
    while i < |members|
      invariant i <= |members|
      invariant KeyIndex(members, name, caseSensitive) == i + KeyIndex(members[i..], name, caseSensitive)
    {
      var diff := CompareStrings(name, members[i].key, caseSensitive);
      if diff == 0 {
        return;
      }
      assert members[i..][1..] == members[i + 1..];
      i := i + 1;
    }
  }

  /** Does `b` have this member, with the same value? */
  ghost predicate HasSame(m: Member<Json>, b: seq<Member<Json>>, caseSensitive: bool) {
    var k := Norm(caseSensitive, m.key);
    && k in Fields(b, caseSensitive)
    && Fields(b, caseSensitive)[k] == Meaning(m.value, caseSensitive)
    && !HasInvalid(m.value)
  }

  /** One of the two passes over the members: each has to be found, equal, in the other object. */
  method AllFound(a: seq<Member<Json>>, b: seq<Member<Json>>, caseSensitive: bool, ghost bound: nat) returns (found: bool)
    requires MembersSize(a) + MembersSize(b) < bound
    requires forall m :: m in a || m in b ==> DistinctSiblings(m.value, caseSensitive)
    ensures found <==> forall i :: 0 <= i < |a| ==> HasSame(a[i], b, caseSensitive)
    decreases bound, 0
  {
    var i := 0;
    while i < |a|
      invariant i <= |a|
      invariant forall k :: 0 <= k < i ==> HasSame(a[k], b, caseSensitive)
    {
      var other := GetObjectItem(b, a[i].key, caseSensitive);
      FieldsLookup(b, a[i].key, caseSensitive);
      if other == |b| {
        assert !HasSame(a[i], b, caseSensitive);
        return false;
      }
      assert a[i] in a && b[other] in b;
      MemberSize(a, a[i]);
      MemberSize(b, b[other]);
      var same := CJsonCompare(a[i].value, b[other].value, caseSensitive);
      if !same {
        assert !HasSame(a[i], b, caseSensitive);
        return false;
      }
      i := i + 1;
    }
    return true;
  }

  /** Finding every member of either object in the other is having the same meaning. */
  lemma FoundBothWays(a: seq<Member<Json>>, b: seq<Member<Json>>, caseSensitive: bool)
    requires DistinctUnder(a, caseSensitive) && DistinctUnder(b, caseSensitive)
    requires forall m :: m in a || m in b ==> DistinctSiblings(m.value, caseSensitive)
    ensures (forall i :: 0 <= i < |a| ==> HasSame(a[i], b, caseSensitive))
         && (forall i :: 0 <= i < |b| ==> HasSame(b[i], a, caseSensitive))
       <==> Fields(a, caseSensitive) == Fields(b, caseSensitive) && forall m :: m in a ==> !HasInvalid(m.value)
  {
    var f, g := Fields(a, caseSensitive), Fields(b, caseSensitive);
    if (forall i :: 0 <= i < |a| ==> HasSame(a[i], b, caseSensitive))
       && (forall i :: 0 <= i < |b| ==> HasSame(b[i], a, caseSensitive)) {
      forall k ensures k in f <==> k in g
               ensures k in f ==> f[k] == g[k] {
        if k in f {
          var i := FieldsOnly(a, k, caseSensitive);
          assert HasSame(a[i], b, caseSensitive);
        }
        if k in g {
          var i := FieldsOnly(b, k, caseSensitive);
          assert HasSame(b[i], a, caseSensitive);
        }
      }
    }
    if f == g && forall m :: m in a ==> !HasInvalid(m.value) {
      forall i | 0 <= i < |a| ensures HasSame(a[i], b, caseSensitive) {
        FieldsAt(a, i, caseSensitive);
        assert a[i] in a;
      }
      forall i | 0 <= i < |b| ensures HasSame(b[i], a, caseSensitive) {
        FieldsAt(b, i, caseSensitive);
        var j := FieldsOnly(a, Norm(caseSensitive, b[i].key), caseSensitive);
        assert b[i] in b && a[j] in a;
        if HasInvalid(b[i].value) {
          InvalidShows(b[i].value, a[j].value, caseSensitive);
        }
      }
    }
  }

  method CompareElements(a: seq<Json>, b: seq<Json>, caseSensitive: bool, ghost bound: nat) returns (equal: bool)
    requires ItemsSize(a) + ItemsSize(b) < bound
    requires forall x :: x in a || x in b ==> DistinctSiblings(x, caseSensitive)
    ensures equal <==> |a| == |b| && forall k :: 0 <= k < |a| ==> SameMeaning(a[k], b[k], caseSensitive)
    decreases bound, 0
  {
    var i := 0;
    while i < |a| && i < |b|
      invariant i <= |a| && i <= |b|
      invariant forall k :: 0 <= k < i ==> SameMeaning(a[k], b[k], caseSensitive)
    {
      ItemSize(a, a[i]);
      ItemSize(b, b[i]);
      var same := CJsonCompare(a[i], b[i], caseSensitive);
      if !same {
        return false;
      }
      i := i + 1;
    }
    return i == |a| && i == |b|;
  }

  /** cJSON_Compare: the same answer as compare_json on trees without Invalid items. */
  method CJsonCompare(a: Json, b: Json, caseSensitive: bool) returns (equal: bool)
    requires DistinctSiblings(a, caseSensitive) && DistinctSiblings(b, caseSensitive)
    ensures equal <==> SameMeaning(a, b, caseSensitive)
    decreases Size(a) + Size(b), 1
  {
    match (a, b) {
      case (Invalid, _) =>
        equal := false;
      case (Array(x), Array(y)) =>
        equal := CompareElements(x, y, caseSensitive, Size(a) + Size(b));
        ElementsSame(x, y, caseSensitive);
      case (Object(x), Object(y)) =>
        FoundBothWays(x, y, caseSensitive);
        equal := AllFound(x, y, caseSensitive, Size(a) + Size(b));
        if equal {
          equal := AllFound(y, x, caseSensitive, Size(a) + Size(b));
        }
      case (_, _) =>
        equal := a == b;
    }
  }

  lemma ElementsSame(a: seq<Json>, b: seq<Json>, caseSensitive: bool)
    ensures |a| == |b| && (forall k :: 0 <= k < |a| ==> SameMeaning(a[k], b[k], caseSensitive)) <==>
            SameMeaning(Array(a), Array(b), caseSensitive)
  {
    if SameMeaning(Array(a), Array(b), caseSensitive) {
      forall k | 0 <= k < |a| ensures SameMeaning(a[k], b[k], caseSensitive) {
        assert Elements(a, caseSensitive)[k] == Elements(b, caseSensitive)[k];
      }
    }
    if |a| == |b| && forall k :: 0 <= k < |a| ==> SameMeaning(a[k], b[k], caseSensitive) {
      assert Elements(a, caseSensitive) == Elements(b, caseSensitive);
      forall x | x in a ensures !HasInvalid(x) {
        var k :| 0 <= k < |a| && a[k] == x;
        assert SameMeaning(a[k], b[k], caseSensitive);
      }
    }
  }
}
