/**
 JSON trees as cJSON holds them (children in order, names on object members) and what they mean: `Meaning` forgets the
 order of members, and reads names the way the comparison in use does. Two trees are equal up to member order (and, when
 letter case is ignored, up to the case of names) when their meanings are equal.
 */
module JsonTrees {
  import opened CStrings

  /** cJSON items without Raw and without reference flags; numbers are integers. */
  datatype Json =
    | Invalid
    | Null
    | False
    | True
    | Number(n: int)
    | String(s: string)
    | Array(items: seq<Json>)
    | Object(members: seq<Member<Json>>)

  datatype Doc =
    | Atom(leaf: Json)
    | Arr(elements: seq<Doc>)
    | Obj(fields: map<string, Doc>)

  function Meaning(j: Json, caseSensitive: bool): Doc
    decreases j
  {
    match j
    case Array(items) => Arr(Elements(items, caseSensitive))
    case Object(members) => Obj(Fields(members, caseSensitive))
    case _ => Atom(j)
  }

  function Elements(items: seq<Json>, caseSensitive: bool): (r: seq<Doc>)
    ensures |r| == |items|
    decreases items
  {
    seq(|items|, i requires 0 <= i < |items| => Meaning(items[i], caseSensitive))
  }

  /** Looking a name up from the front: the first member with that name wins. */
  function Fields(members: seq<Member<Json>>, caseSensitive: bool): map<string, Doc>
    decreases members
  {
    if members == [] then map[]
    else Fields(members[1..], caseSensitive)[Norm(caseSensitive, members[0].key) := Meaning(members[0].value, caseSensitive)]
  }

  predicate DistinctUnder(members: seq<Member<Json>>, caseSensitive: bool) {
    forall i, j :: 0 <= i < j < |members| ==> Norm(caseSensitive, members[i].key) != Norm(caseSensitive, members[j].key)
  }

  /** Sibling names are pairwise distinct under the comparison in use, at every object. */
  predicate DistinctSiblings(j: Json, caseSensitive: bool)
    decreases j
  {
    match j
    case Array(items) => forall x | x in items :: DistinctSiblings(x, caseSensitive)
    case Object(members) => DistinctMembers(members, caseSensitive)
    case _ => true
  }

  predicate DistinctMembers(members: seq<Member<Json>>, caseSensitive: bool)
    decreases members
  {
    DistinctUnder(members, caseSensitive) && forall m | m in members :: DistinctSiblings(m.value, caseSensitive)
  }

  /** One more than the largest `size_t`. */
  const SIZE_LIMIT: nat := 0x1_0000_0000_0000_0000

  /** No array has as many elements as `size_t` has values, which no array in memory can. */
  predicate Fits(j: Json)
    decreases j
  {
    match j
    case Array(items) => |items| < SIZE_LIMIT && forall x | x in items :: Fits(x)
    case Object(members) => forall m | m in members :: Fits(m.value)
    case _ => true
  }

  /** An Invalid item anywhere: cJSON_Compare never calls such a tree equal to anything, and it does not print. */
  predicate HasInvalid(j: Json)
    decreases j
  {
    match j
    case Invalid => true
    case Array(items) => exists x | x in items :: HasInvalid(x)
    case Object(members) => exists m | m in members :: HasInvalid(m.value)
    case _ => false
  }

  // ---------- what editing a member list does to its meaning ----------

  /** Index of the first member whose name equals `name`, or the number of members. */
  function KeyIndex(members: seq<Member<Json>>, name: string, caseSensitive: bool): (i: nat)
    ensures i <= |members|
    ensures i < |members| ==> Norm(caseSensitive, members[i].key) == Norm(caseSensitive, name)
    ensures forall j :: 0 <= j < i ==> Norm(caseSensitive, members[j].key) != Norm(caseSensitive, name)
  {
    if members == [] then 0
    else if Norm(caseSensitive, members[0].key) == Norm(caseSensitive, name) then 0
    else 1 + KeyIndex(members[1..], name, caseSensitive)
  }

  lemma {:induction false} FieldsLookup(members: seq<Member<Json>>, name: string, caseSensitive: bool)
    ensures var k := Norm(caseSensitive, name); var i := KeyIndex(members, name, caseSensitive);
      && (k in Fields(members, caseSensitive) <==> i < |members|)
      && (k in Fields(members, caseSensitive) ==>
            Fields(members, caseSensitive)[k] == Meaning(members[i].value, caseSensitive))
  {
    if members != [] {
      FieldsLookup(members[1..], name, caseSensitive);
    }
  }

  /** Every key of the meaning is the name of some member. */
  lemma {:induction false} FieldsOnly(members: seq<Member<Json>>, k: string, caseSensitive: bool) returns (i: nat)
    requires k in Fields(members, caseSensitive)
    ensures i < |members| && Norm(caseSensitive, members[i].key) == k
    ensures Fields(members, caseSensitive)[k] == Meaning(members[i].value, caseSensitive)
  {
    if Norm(caseSensitive, members[0].key) == k {
      i := 0;
    } else {
      i := FieldsOnly(members[1..], k, caseSensitive);
      i := i + 1;
    }
  }

  lemma FieldsAt(members: seq<Member<Json>>, i: nat, caseSensitive: bool)
    requires i < |members| && DistinctUnder(members, caseSensitive)
    ensures KeyIndex(members, members[i].key, caseSensitive) == i
    ensures Norm(caseSensitive, members[i].key) in Fields(members, caseSensitive)
    ensures Fields(members, caseSensitive)[Norm(caseSensitive, members[i].key)] == Meaning(members[i].value, caseSensitive)
  {
    FieldsLookup(members, members[i].key, caseSensitive);
  }

  lemma {:induction false} FieldsAppend(members: seq<Member<Json>>, m: Member<Json>, caseSensitive: bool)
    requires KeyIndex(members, m.key, caseSensitive) == |members|
    ensures Fields(members + [m], caseSensitive) ==
            Fields(members, caseSensitive)[Norm(caseSensitive, m.key) := Meaning(m.value, caseSensitive)]
  {
    if members == [] {
      assert [] + [m] == [m] && [m][1..] == [];
    } else {
      assert (members + [m])[1..] == members[1..] + [m];
      FieldsAppend(members[1..], m, caseSensitive);
    }
  }

  function RemoveAt<T>(s: seq<T>, i: nat): (r: seq<T>)
    requires i < |s|
    ensures |r| == |s| - 1
    ensures forall j :: 0 <= j < |r| ==> r[j] == s[if j < i then j else j + 1]
    ensures forall x :: x in r ==> x in s
  {
    s[..i] + s[i + 1..]
  }

  lemma MapRemove<K, V>(m: map<K, V>, k: K, v: V, gone: K)
    ensures k != gone ==> (m - {gone})[k := v] == m[k := v] - {gone}
    ensures k == gone && gone !in m ==> m == m[k := v] - {gone}
  {
  }

  lemma {:induction false} FieldsRemove(members: seq<Member<Json>>, i: nat, caseSensitive: bool)
    requires i < |members| && DistinctUnder(members, caseSensitive)
    ensures Fields(RemoveAt(members, i), caseSensitive) ==
            Fields(members, caseSensitive) - {Norm(caseSensitive, members[i].key)}
  {
    var rest, tail := RemoveAt(members, i), members[1..];
    var k, gone := Norm(caseSensitive, members[0].key), Norm(caseSensitive, members[i].key);
    MapRemove(Fields(tail, caseSensitive), k, Meaning(members[0].value, caseSensitive), gone);
    if i == 0 {
      assert rest == tail;
      FieldsLookup(tail, members[0].key, caseSensitive);
    } else {
      assert rest[1..] == RemoveAt(tail, i - 1) && tail[i - 1] == members[i];
      FieldsRemove(tail, i - 1, caseSensitive);
    }
  }

  lemma {:induction false} FieldsSet(members: seq<Member<Json>>, i: nat, value: Json, caseSensitive: bool)
    requires i < |members| && DistinctUnder(members, caseSensitive)
    ensures Fields(members[i := members[i].(value := value)], caseSensitive) ==
            Fields(members, caseSensitive)[Norm(caseSensitive, members[i].key) := Meaning(value, caseSensitive)]
  {
    var after := members[i := members[i].(value := value)];
    if i == 0 {
      assert after[1..] == members[1..];
    } else {
      assert after[1..] == members[1..][i - 1 := members[i].(value := value)];
      FieldsSet(members[1..], i - 1, value, caseSensitive);
      assert Norm(caseSensitive, members[0].key) != Norm(caseSensitive, members[i].key);
    }
  }

  /** Reordering members with distinct names leaves the meaning alone. */
  lemma FieldsReorder(a: seq<Member<Json>>, b: seq<Member<Json>>, caseSensitive: bool)
    requires multiset(a) == multiset(b) && DistinctUnder(a, caseSensitive)
    ensures DistinctUnder(b, caseSensitive)
    ensures Fields(a, caseSensitive) == Fields(b, caseSensitive)
  {
    DistinctReorder(a, b, caseSensitive);
    FieldsWithin(a, b, caseSensitive);
    FieldsWithin(b, a, caseSensitive);
  }

  lemma FieldsWithin(a: seq<Member<Json>>, b: seq<Member<Json>>, caseSensitive: bool)
    requires multiset(a) == multiset(b) && DistinctUnder(b, caseSensitive)
    ensures forall k :: k in Fields(a, caseSensitive) ==>
              k in Fields(b, caseSensitive) && Fields(a, caseSensitive)[k] == Fields(b, caseSensitive)[k]
  {
    forall k | k in Fields(a, caseSensitive)
      ensures k in Fields(b, caseSensitive) && Fields(a, caseSensitive)[k] == Fields(b, caseSensitive)[k]
    {
      var i := FieldsOnly(a, k, caseSensitive);
      assert a[i] in multiset(b);
      var j :| 0 <= j < |b| && b[j] == a[i];
      FieldsAt(b, j, caseSensitive);
    }
  }

  lemma DistinctReorder(a: seq<Member<Json>>, b: seq<Member<Json>>, caseSensitive: bool)
    requires multiset(a) == multiset(b) && DistinctUnder(a, caseSensitive)
    ensures DistinctUnder(b, caseSensitive)
  {
    forall i, j | 0 <= i < j < |b|
      ensures Norm(caseSensitive, b[i].key) != Norm(caseSensitive, b[j].key)
    {
      if b[i] == b[j] {
        assert b == b[..i] + [b[i]] + b[i + 1..j] + [b[j]] + b[j + 1..];
        OnceInDistinct(a, b[i], caseSensitive);
        assert false;
      }
      assert b[i] in multiset(b) && b[j] in multiset(b);
      var p :| 0 <= p < |a| && a[p] == b[i];
      var q :| 0 <= q < |a| && a[q] == b[j];
    }
  }

  lemma {:induction false} OnceInDistinct(a: seq<Member<Json>>, m: Member<Json>, caseSensitive: bool)
    requires DistinctUnder(a, caseSensitive)
    ensures multiset(a)[m] <= 1
  {
    if a != [] {
      assert a == [a[0]] + a[1..];
      OnceInDistinct(a[1..], m, caseSensitive);
      if a[0] == m {
        assert m !in a[1..];
        assert m !in multiset(a[1..]);
      }
    }
  }
}
