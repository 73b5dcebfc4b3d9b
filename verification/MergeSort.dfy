/** The merge sort of sort_list on the sequence of list items: what it computes, and that it sorts. */
module MergeSort {
  import opened CStrings

  predicate Before<T>(a: Member<T>, b: Member<T>, caseSensitive: bool) {
    Less(Norm(caseSensitive, a.key), Norm(caseSensitive, b.key))
  }

  /** The scan that leaves sorted lists unmodified: every item is strictly before its successor. */
  predicate Ascending<T>(s: seq<Member<T>>, caseSensitive: bool) {
    forall i :: 0 <= i < |s| - 1 ==> Before(s[i], s[i + 1], caseSensitive)
  }

  function Merge<T>(a: seq<Member<T>>, b: seq<Member<T>>, caseSensitive: bool): (r: seq<Member<T>>)
    ensures |r| == |a| + |b|
    decreases |a| + |b|
  {
    if a == [] then b
    else if b == [] then a
    else if Before(a[0], b[0], caseSensitive) then [a[0]] + Merge(a[1..], b, caseSensitive)
    else [b[0]] + Merge(a, b[1..], caseSensitive)
  }

  function Sort<T>(s: seq<Member<T>>, caseSensitive: bool): (r: seq<Member<T>>)
    ensures |r| == |s|
    decreases |s|
  {
    if |s| <= 1 || Ascending(s, caseSensitive) then s
    else
      var middle := (|s| + 1) / 2;
      Merge(Sort(s[..middle], caseSensitive), Sort(s[middle..], caseSensitive), caseSensitive)
  }

  lemma SortUnfold<T>(s: seq<Member<T>>, caseSensitive: bool, middle: nat)
    requires |s| > 1 && !Ascending(s, caseSensitive) && middle == (|s| + 1) / 2
    ensures Sort(s, caseSensitive) == Merge(Sort(s[..middle], caseSensitive), Sort(s[middle..], caseSensitive), caseSensitive)
  {
  }

  predicate NonDecreasing<T>(s: seq<Member<T>>, caseSensitive: bool) {
    forall i, j :: 0 <= i < j < |s| ==> !Before(s[j], s[i], caseSensitive)
  }

  predicate StrictlyIncreasing<T>(s: seq<Member<T>>, caseSensitive: bool) {
    forall i, j :: 0 <= i < j < |s| ==> Before(s[i], s[j], caseSensitive)
  }

  /** An item in front of two lists with the same items. */
  lemma MultisetHead<T>(s: seq<T>, x: T, rest: seq<T>, r: seq<T>, tail: seq<T>, other: multiset<T>)
    requires s == [x] + rest && r == [x] + tail && multiset(tail) == multiset(rest) + other
    ensures multiset(r) == multiset(s) + other
  {
  }

  lemma {:induction false} MergePermutes<T>(a: seq<Member<T>>, b: seq<Member<T>>, caseSensitive: bool)
    ensures multiset(Merge(a, b, caseSensitive)) == multiset(a) + multiset(b)
    decreases |a| + |b|
  {
    if a != [] && b != [] {
      var r := Merge(a, b, caseSensitive);
      if Before(a[0], b[0], caseSensitive) {
        MergePermutes(a[1..], b, caseSensitive);
        MultisetHead(a, a[0], a[1..], r, Merge(a[1..], b, caseSensitive), multiset(b));
      } else {
        MergePermutes(a, b[1..], caseSensitive);
        MultisetHead(b, b[0], b[1..], r, Merge(a, b[1..], caseSensitive), multiset(a));
      }
    }
  }

  lemma MultisetSplit<T>(s: seq<T>, n: nat)
    requires n <= |s|
    ensures multiset(s) == multiset(s[..n]) + multiset(s[n..])
  {
    assert s == s[..n] + s[n..];
  }

  /** Sorting keeps every item exactly as often as it was there. */
  lemma {:induction false} SortPermutes<T>(s: seq<Member<T>>, caseSensitive: bool)
    ensures multiset(Sort(s, caseSensitive)) == multiset(s)
    decreases |s|
  {
    if |s| > 1 && !Ascending(s, caseSensitive) {
      var middle := (|s| + 1) / 2;
      var first, second := s[..middle], s[middle..];
      SortPermutes(first, caseSensitive);
      SortPermutes(second, caseSensitive);
      MergePermutes(Sort(first, caseSensitive), Sort(second, caseSensitive), caseSensitive);
      MultisetSplit(s, middle);
    }
  }

  lemma BeforeTransitive<T>(a: Member<T>, b: Member<T>, c: Member<T>, caseSensitive: bool)
    requires !Before(b, a, caseSensitive) && !Before(c, b, caseSensitive)
    ensures !Before(c, a, caseSensitive)
  {
    var x, y, z := Norm(caseSensitive, a.key), Norm(caseSensitive, b.key), Norm(caseSensitive, c.key);
    LessTotal(x, y);
    LessTotal(y, z);
    if Less(z, x) {
      if Less(x, y) {
        LessTransitive(z, x, y);
      }
      if Less(y, z) {
        LessTransitive(y, z, x);
      }
    }
  }

  lemma {:induction false} AscendingSorted<T>(s: seq<Member<T>>, caseSensitive: bool, i: nat, j: nat)
    requires Ascending(s, caseSensitive) && i < j < |s|
    ensures Before(s[i], s[j], caseSensitive)
    decreases j - i
  {
    if j > i + 1 {
      AscendingSorted(s, caseSensitive, i + 1, j);
      LessTransitive(Norm(caseSensitive, s[i].key), Norm(caseSensitive, s[i + 1].key), Norm(caseSensitive, s[j].key));
    }
  }

  predicate NoneBefore<T>(s: seq<Member<T>>, m: Member<T>, caseSensitive: bool) {
    forall i :: 0 <= i < |s| ==> !Before(s[i], m, caseSensitive)
  }

  lemma {:induction false} MergeAbove<T>(a: seq<Member<T>>, b: seq<Member<T>>, m: Member<T>, caseSensitive: bool)
    requires NoneBefore(a, m, caseSensitive) && NoneBefore(b, m, caseSensitive)
    ensures NoneBefore(Merge(a, b, caseSensitive), m, caseSensitive)
    decreases |a| + |b|
  {
    if a != [] && b != [] {
      if Before(a[0], b[0], caseSensitive) {
        MergeAbove(a[1..], b, m, caseSensitive);
      } else {
        MergeAbove(a, b[1..], m, caseSensitive);
      }
    }
  }

  lemma {:induction false} MergeOrders<T>(a: seq<Member<T>>, b: seq<Member<T>>, caseSensitive: bool)
    requires NonDecreasing(a, caseSensitive) && NonDecreasing(b, caseSensitive)
    ensures NonDecreasing(Merge(a, b, caseSensitive), caseSensitive)
    decreases |a| + |b|
  {
    if a != [] && b != [] {
      var first, rest;
      if Before(a[0], b[0], caseSensitive) {
        first, rest := a[0], Merge(a[1..], b, caseSensitive);
        MergeOrders(a[1..], b, caseSensitive);
        LessTotal(Norm(caseSensitive, a[0].key), Norm(caseSensitive, b[0].key));
        HeadFirst(a[0], b, caseSensitive);
        MergeAbove(a[1..], b, first, caseSensitive);
      } else {
        first, rest := b[0], Merge(a, b[1..], caseSensitive);
        MergeOrders(a, b[1..], caseSensitive);
        HeadFirst(b[0], a, caseSensitive);
        MergeAbove(a, b[1..], first, caseSensitive);
      }
      forall i, j | 0 <= i < j < 1 + |rest| ensures !Before(([first] + rest)[j], ([first] + rest)[i], caseSensitive) {
        if i > 0 {
          assert !Before(rest[j - 1], rest[i - 1], caseSensitive);
        } else {
          assert !Before(rest[j - 1], first, caseSensitive);
        }
      }
    }
  }

  lemma HeadFirst<T>(m: Member<T>, s: seq<Member<T>>, caseSensitive: bool)
    requires NonDecreasing(s, caseSensitive) && s != [] && !Before(s[0], m, caseSensitive)
    ensures NoneBefore(s, m, caseSensitive)
  {
    forall i | 0 <= i < |s| ensures !Before(s[i], m, caseSensitive) {
      if i > 0 {
        BeforeTransitive(m, s[0], s[i], caseSensitive);
      }
    }
  }

  /** The result is in non-decreasing name order, whatever list it started from. */
  lemma {:induction false} SortOrders<T>(s: seq<Member<T>>, caseSensitive: bool)
    ensures NonDecreasing(Sort(s, caseSensitive), caseSensitive)
    decreases |s|
  {
    if |s| > 1 && Ascending(s, caseSensitive) {
      forall i, j | 0 <= i < j < |s| ensures !Before(s[j], s[i], caseSensitive) {
        AscendingSorted(s, caseSensitive, i, j);
        LessTotal(Norm(caseSensitive, s[i].key), Norm(caseSensitive, s[j].key));
      }
    } else if |s| > 1 {
      var middle := (|s| + 1) / 2;
      SortOrders(s[..middle], caseSensitive);
      SortOrders(s[middle..], caseSensitive);
      MergeOrders(Sort(s[..middle], caseSensitive), Sort(s[middle..], caseSensitive), caseSensitive);
    }
  }

  // ---------- the first and the last ----------

  lemma Twice<T>(s: seq<T>, i: nat, j: nat)
    requires i < j < |s| && s[i] == s[j]
    ensures multiset(s)[s[i]] >= 2
  {
    assert s == s[..j] + s[j..];
    assert s[..j][i] in multiset(s[..j]) && s[j..][0] in multiset(s[j..]);
  }

  lemma {:induction false} Once<T>(s: seq<T>, x: T)
    requires forall i, j :: 0 <= i < j < |s| ==> s[i] != s[j]
    ensures multiset(s)[x] <= 1
  {
    if s != [] {
      assert s == [s[0]] + s[1..];
      Once(s[1..], x);
      assert x == s[0] ==> x !in s[1..];
    }
  }

  function IndexOf<T(==)>(s: seq<T>, x: T): (i: nat)
    requires x in s
    ensures i < |s| && s[i] == x
  {
    if s[0] == x then 0 else 1 + IndexOf(s[1..], x)
  }

  lemma StaysIn<T>(s: seq<Member<T>>, x: Member<T>, caseSensitive: bool)
    requires x in s
    ensures x in Sort(s, caseSensitive)
  {
    SortPermutes(s, caseSensitive);
    assert x in multiset(s);
  }

  /** Sorting leaves the first entry first and the last entry last. */
  predicate KeepsEnds<T(==)>(s: seq<Member<T>>, caseSensitive: bool) {
    s != [] ==> Sort(s, caseSensitive)[0] == s[0] && Sort(s, caseSensitive)[|s| - 1] == s[|s| - 1]
  }

  lemma WasIn<T>(s: seq<Member<T>>, x: Member<T>, caseSensitive: bool)
    requires x in Sort(s, caseSensitive)
    ensures x in s
  {
    SortPermutes(s, caseSensitive);
    assert x in multiset(Sort(s, caseSensitive));
  }

  lemma EndsBound<T>(s: seq<Member<T>>, sorted: seq<Member<T>>, caseSensitive: bool, i: nat)
    requires i < |s| && sorted == Sort(s, caseSensitive)
    ensures sorted[0] in s && sorted[|s| - 1] in s
    ensures !Before(s[i], sorted[0], caseSensitive) && !Before(sorted[|s| - 1], s[i], caseSensitive)
  {
    WasIn(s, sorted[0], caseSensitive);
    WasIn(s, sorted[|s| - 1], caseSensitive);
    SortOrders(s, caseSensitive);
    StaysIn(s, s[i], caseSensitive);
    Within(sorted, caseSensitive, IndexOf(sorted, s[i]));
  }

  lemma Within<T>(sorted: seq<Member<T>>, caseSensitive: bool, k: nat)
    requires NonDecreasing(sorted, caseSensitive) && k < |sorted|
    ensures !Before(sorted[k], sorted[0], caseSensitive) && !Before(sorted[|sorted| - 1], sorted[k], caseSensitive)
  {
    LessTotal(Norm(caseSensitive, sorted[k].key), Norm(caseSensitive, sorted[k].key));
  }

  /** With different names, that is: the first name comes first and the last name comes last. */
  lemma KeepsEndsByName<T>(s: seq<Member<T>>, caseSensitive: bool)
    requires forall i, j :: 0 <= i < j < |s| ==> Norm(caseSensitive, s[i].key) != Norm(caseSensitive, s[j].key)
    ensures KeepsEnds(s, caseSensitive) <==>
            (forall i :: 0 <= i < |s| ==> !Before(s[i], s[0], caseSensitive) && !Before(s[|s| - 1], s[i], caseSensitive))
  {
    if s != [] {
      var sorted, last := Sort(s, caseSensitive), |s| - 1;
      forall i | 0 <= i < |s| ensures !Before(s[i], sorted[0], caseSensitive) && !Before(sorted[last], s[i], caseSensitive) {
        EndsBound(s, sorted, caseSensitive, i);
      }
      EndsBound(s, sorted, caseSensitive, 0);
      var a, b := IndexOf(s, sorted[0]), IndexOf(s, sorted[last]);
      LessTotal(Norm(caseSensitive, s[a].key), Norm(caseSensitive, s[0].key));
      LessTotal(Norm(caseSensitive, s[b].key), Norm(caseSensitive, s[last].key));
    }
  }

  // ---------- equal names ----------

  function WithName<T>(s: seq<Member<T>>, name: string, caseSensitive: bool): seq<Member<T>> {
    if s == [] then []
    else (if Norm(caseSensitive, s[0].key) == name then [s[0]] else []) + WithName(s[1..], name, caseSensitive)
  }

  function Backwards<T>(s: seq<T>): seq<T> {
    if s == [] then [] else Backwards(s[1..]) + [s[0]]
  }

  lemma {:induction false} BackwardsJoin<T>(a: seq<T>, b: seq<T>)
    ensures Backwards(a + b) == Backwards(b) + Backwards(a)
    decreases |a|
  {
    if a == [] {
      assert a + b == b;
    } else {
      assert (a + b)[1..] == a[1..] + b;
      BackwardsJoin(a[1..], b);
    }
  }

  lemma {:induction false} WithNameJoin<T>(a: seq<Member<T>>, b: seq<Member<T>>, name: string, caseSensitive: bool)
    ensures WithName(a + b, name, caseSensitive) == WithName(a, name, caseSensitive) + WithName(b, name, caseSensitive)
    decreases |a|
  {
    if a == [] {
      assert a + b == b;
    } else {
      assert (a + b)[1..] == a[1..] + b;
      WithNameJoin(a[1..], b, name, caseSensitive);
    }
  }

  lemma {:induction false} NoneWithName<T>(s: seq<Member<T>>, name: string, caseSensitive: bool)
    requires forall i :: 0 <= i < |s| ==> Norm(caseSensitive, s[i].key) != name
    ensures WithName(s, name, caseSensitive) == []
    decreases |s|
  {
    if s != [] {
      NoneWithName(s[1..], name, caseSensitive);
    }
  }

  /** No item of a sorted list has the name of one that comes before its first item. */
  lemma BeforeAll<T>(m: Member<T>, s: seq<Member<T>>, caseSensitive: bool)
    requires NonDecreasing(s, caseSensitive) && (s != [] ==> Before(m, s[0], caseSensitive))
    ensures WithName(s, Norm(caseSensitive, m.key), caseSensitive) == []
  {
    forall i | 0 <= i < |s| ensures Norm(caseSensitive, s[i].key) != Norm(caseSensitive, m.key) {
      LessTotal(Norm(caseSensitive, m.key), Norm(caseSensitive, s[0].key));
    }
    NoneWithName(s, Norm(caseSensitive, m.key), caseSensitive);
  }

  /** Of equal names, those of the second list come first. */
  lemma {:induction false} MergeTies<T>(a: seq<Member<T>>, b: seq<Member<T>>, name: string, caseSensitive: bool)
    requires NonDecreasing(a, caseSensitive) && NonDecreasing(b, caseSensitive)
    ensures WithName(Merge(a, b, caseSensitive), name, caseSensitive)
            == WithName(b, name, caseSensitive) + WithName(a, name, caseSensitive)
    decreases |a| + |b|
  {
    if a != [] && b != [] {
      if Before(a[0], b[0], caseSensitive) {
        MergeTies(a[1..], b, name, caseSensitive);
        BeforeAll(a[0], b, caseSensitive);
      } else {
        MergeTies(a, b[1..], name, caseSensitive);
      }
    }
  }

  lemma {:induction false} AscendingTies<T>(s: seq<Member<T>>, name: string, caseSensitive: bool)
    requires Ascending(s, caseSensitive)
    ensures Backwards(WithName(s, name, caseSensitive)) == WithName(s, name, caseSensitive)
    decreases |s|
  {
    if s != [] {
      if Norm(caseSensitive, s[0].key) == name {
        forall i | 0 <= i < |s| - 1 ensures Norm(caseSensitive, s[1..][i].key) != name {
          AscendingSorted(s, caseSensitive, 0, i + 1);
          LessTotal(name, Norm(caseSensitive, s[i + 1].key));
        }
        NoneWithName(s[1..], name, caseSensitive);
      } else {
        forall i | 0 <= i < |s| - 2 ensures Before(s[1..][i], s[1..][i + 1], caseSensitive) {
          assert Before(s[i + 1], s[i + 1 + 1], caseSensitive);
        }
        AscendingTies(s[1..], name, caseSensitive);
        assert WithName(s, name, caseSensitive) == WithName(s[1..], name, caseSensitive);
      }
    }
  }

  /** The sort is not stable: items of the same name come out in the opposite order. With SortOrders this says where every item goes. */
  lemma {:induction false} SortReversesTies<T>(s: seq<Member<T>>, name: string, caseSensitive: bool)
    ensures WithName(Sort(s, caseSensitive), name, caseSensitive) == Backwards(WithName(s, name, caseSensitive))
    decreases |s|
  {
    if |s| <= 1 || Ascending(s, caseSensitive) {
      AscendingTies(s, name, caseSensitive);
    } else {
      var middle := (|s| + 1) / 2;
      var first, second := s[..middle], s[middle..];
      SortReversesTies(first, name, caseSensitive);
      SortReversesTies(second, name, caseSensitive);
      SortOrders(first, caseSensitive);
      SortOrders(second, caseSensitive);
      MergeTies(Sort(first, caseSensitive), Sort(second, caseSensitive), name, caseSensitive);
      assert s == first + second;
      WithNameJoin(first, second, name, caseSensitive);
      BackwardsJoin(WithName(first, name, caseSensitive), WithName(second, name, caseSensitive));
    }
  }
}
