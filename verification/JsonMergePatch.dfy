/** merge_patch and generate_merge_patch, against RFC 7396. */
module JsonMergePatch {
  import opened CStrings
  import opened JsonTrees
  import opened MergeSort
  import opened JsonCompare
  import opened JsonPatchRefines
  import Rfc7396

  // ---------- merge_patch ----------

  function MembersOf(j: Option<Json>): seq<Member<Json>> {
    if j.Some? && j.value.Object? then j.value.members else []
  }

  /** The tree merge_patch returns, for any names. */
  function MergeTree(target: Option<Json>, patch: Json, cs: bool): Json
    decreases patch, 0
  {
    match patch
    case Object(changes) => Object(MergeMembers(MembersOf(target), changes, cs))
    case _ => patch
  }

  function MergeMembers(members: seq<Member<Json>>, changes: seq<Member<Json>>, cs: bool): seq<Member<Json>>
    decreases changes, 0
  {
    if changes == [] then members
    else MergeMembers(MergeMember(members, changes[0].key, changes[0].value, cs), changes[1..], cs)
  }

  function MergeMember(members: seq<Member<Json>>, name: string, change: Json, cs: bool): seq<Member<Json>>
    decreases change, 1
  {
    var i := KeyIndex(members, name, cs);
    var rest := if i < |members| then RemoveAt(members, i) else members;
    if change == Null then rest
    else rest + [Member(name, MergeTree(if i < |members| then Some(members[i].value) else None, change, cs))]
  }

  /** merge_patch. */
  method MergePatch(target: Option<Json>, patch: Json, cs: bool) returns (result: Json)
    ensures result == MergeTree(target, patch, cs)
    decreases patch
  {
    if !patch.Object? {
      return patch;
    }
    var members := if target.Some? && target.value.Object? then target.value.members else [];
    var i := 0;
    assert patch.members[0..] == patch.members;
    while i < |patch.members|
      invariant i <= |patch.members|
      invariant MergeMembers(members, patch.members[i..], cs) == MergeMembers(MembersOf(target), patch.members, cs)
    {
      var change := patch.members[i];
      assert patch.members[i..][0] == change && patch.members[i..][1..] == patch.members[i + 1..];
      var replaceMe := GetObjectItem(members, change.key, cs);
      var previous := None;
      var rest := members;
      if replaceMe < |members| {
        previous, rest := Some(members[replaceMe].value), RemoveAt(members, replaceMe);
      }
      if change.value == Null {
        members := rest;
      } else {
        var replacement := MergePatch(previous, change.value, cs);
        members := rest + [Member(change.key, replacement)];
      }
      i := i + 1;
    }
    return Object(members);
  }

  function MeaningOf(j: Option<Json>, cs: bool): Option<Doc> {
    if j == None then None else Some(Meaning(j.value, cs))
  }

  /** The fields after merging changes into them. */
  function Merged(base: map<string, Doc>, changes: map<string, Doc>): map<string, Doc> {
    Rfc7396.MergePatch(Some(Obj(base)), Obj(changes)).fields
  }

  function Changed(base: map<string, Doc>, k: string, v: Doc): map<string, Doc> {
    if v == Rfc7396.Nothing then base - {k}
    else base[k := Rfc7396.MergePatch(if k in base then Some(base[k]) else None, v)]
  }

  lemma MergedStep(base: map<string, Doc>, k: string, v: Doc, changes: map<string, Doc>)
    requires k !in changes
    ensures Merged(base, changes[k := v]) == Merged(Changed(base, k, v), changes)
  {
    var l, r := Merged(base, changes[k := v]), Merged(Changed(base, k, v), changes);
    assert l.Keys == r.Keys;
    assert forall x :: x in l ==> l[x] == r[x];
  }

  /** Merging one member changes the object at its name only. */
  lemma MergeMemberFields(members: seq<Member<Json>>, name: string, change: Json, cs: bool)
    requires DistinctUnder(members, cs)
    ensures var after, k := MergeMember(members, name, change, cs), Norm(cs, name);
      && DistinctUnder(after, cs)
      && Fields(after, cs) ==
           if change == Null then Fields(members, cs) - {k}
           else Fields(members, cs)[k := Meaning(MergeTree(Present(members, name, cs), change, cs), cs)]
  {
    var i := KeyIndex(members, name, cs);
    FieldsLookup(members, name, cs);
    if i < |members| {
      FieldsRemove(members, i, cs);
      DistinctRemove(members, i, cs);
    }
    if change != Null {
      NameGone(members, name, cs);
      SetMemberFields(members, name, MergeTree(Present(members, name, cs), change, cs), cs);
    }
  }

  function Present(members: seq<Member<Json>>, name: string, cs: bool): Option<Json> {
    var i := KeyIndex(members, name, cs);
    if i < |members| then Some(members[i].value) else None
  }

  lemma MergeMemberDistinct(members: seq<Member<Json>>, name: string, change: Json, cs: bool)
    requires DistinctMembers(members, cs)
    requires change != Null ==> DistinctSiblings(MergeTree(Present(members, name, cs), change, cs), cs)
    ensures DistinctMembers(MergeMember(members, name, change, cs), cs)
  {
    MergeMemberFields(members, name, change, cs);
  }

  lemma {:induction false} MergeMemberRefines(members: seq<Member<Json>>, name: string, change: Json, cs: bool)
    requires DistinctMembers(members, cs) && DistinctSiblings(change, cs)
    ensures DistinctMembers(MergeMember(members, name, change, cs), cs)
    ensures Fields(MergeMember(members, name, change, cs), cs) ==
            Changed(Fields(members, cs), Norm(cs, name), Meaning(change, cs))
    decreases change, 2
  {
    FieldsLookup(members, name, cs);
    if change != Null {
      MergeTreeRefines(Present(members, name, cs), change, cs);
    }
    MergeMemberFields(members, name, change, cs);
    MergeMemberDistinct(members, name, change, cs);
  }

  lemma {:induction false} MergeMembersRefines(members: seq<Member<Json>>, changes: seq<Member<Json>>, cs: bool)
    requires DistinctMembers(members, cs) && DistinctMembers(changes, cs)
    ensures DistinctMembers(MergeMembers(members, changes, cs), cs)
    ensures Fields(MergeMembers(members, changes, cs), cs) == Merged(Fields(members, cs), Fields(changes, cs))
    decreases changes, 0
  {
    if changes == [] {
      assert Merged(Fields(members, cs), map[]) == Fields(members, cs);
    } else {
      var c := changes[0];
      assert c in changes;
      var next := MergeMember(members, c.key, c.value, cs);
      MergeMemberRefines(members, c.key, c.value, cs);
      MergeMembersRefines(next, changes[1..], cs);
      FieldsLookup(changes[1..], c.key, cs);
      assert forall k :: 0 <= k < |changes| - 1 ==> changes[1..][k] == changes[k + 1];
      MergedStep(Fields(members, cs), Norm(cs, c.key), Meaning(c.value, cs), Fields(changes[1..], cs));
    }
  }

  /** merge_patch computes the MergePatch of RFC 7396, for every target and patch with distinct sibling names. */
  lemma {:induction false} MergeTreeRefines(target: Option<Json>, patch: Json, cs: bool)
    requires DistinctSiblings(patch, cs) && (target.Some? ==> DistinctSiblings(target.value, cs))
    ensures DistinctSiblings(MergeTree(target, patch, cs), cs)
    ensures Meaning(MergeTree(target, patch, cs), cs) == Rfc7396.MergePatch(MeaningOf(target, cs), Meaning(patch, cs))
    decreases patch, 1
  {
    match patch
    case Object(changes) =>
      var members := MembersOf(target);
      assert DistinctMembers(members, cs);
      assert Fields(members, cs) == Rfc7396.FieldsOf(MeaningOf(target, cs));
      MergeMembersRefines(members, changes, cs);
    case _ =>
  }

  // ---------- generate_merge_patch ----------

  /** The patch generate_merge_patch builds; None stands for the NULL it returns when there is nothing to say. */
  function GenerateTree(from: Json, to: Json, cs: bool): Option<Json>
    decreases Size(from), 0, 0
  {
    if !from.Object? || !to.Object? then Some(to)
    else
      SortedSize(from.members, cs);
      var patch := GenerateMembers(Sort(from.members, cs), Sort(to.members, cs), cs);
      if patch == [] then None else Some(Object(patch))
  }

  /** The walk in step. Names are compared with strcmp and nested patches are generated without regard to case, whatever
      the mode. */
  function GenerateMembers(s: seq<Member<Json>>, t: seq<Member<Json>>, cs: bool): seq<Member<Json>>
    decreases MembersSize(s), 2, |s| + |t|
  {
    if s == [] && t == [] then []
    else if s != [] && (t == [] || Less(s[0].key, t[0].key)) then
      [Member(s[0].key, Null)] + GenerateMembers(s[1..], t, cs)
    else if s == [] || s[0].key != t[0].key then
      [Member(t[0].key, t[0].value)] + GenerateMembers(s, t[1..], cs)
    else PairPatch(t[0].key, s[0].value, t[0].value, cs) + GenerateMembers(s[1..], t[1..], cs)
  }

  /** What two members of one name contribute. Comparing the values has sorted the objects in them. */
  function PairPatch(name: string, v: Json, w: Json, cs: bool): seq<Member<Json>>
    decreases Size(v), 1, 0
  {
    if JsonEqual(v, w, cs) then []
    else
      LeftSize(v, w, cs);
      var nested := GenerateTree(Left(v, w, cs), Left(w, v, cs), false);
      if nested == None then [] else [Member(name, nested.value)]
  }

  /** generate_merge_patch. */
  method GenerateMergePatch(from: Json, to: Json, cs: bool) returns (patch: Option<Json>)
    ensures patch == GenerateTree(from, to, cs)
    decreases Size(from), 0
  {
    if !to.Object? || !from.Object? {
      return Some(to);
    }
    SortedSize(from.members, cs);
    var members := GenerateChanges(Sort(from.members, cs), Sort(to.members, cs), cs);
    return if members == [] then None else Some(Object(members));
  }

  /** The object key exists in both objects. */
  method GeneratePair(name: string, v: Json, w: Json, cs: bool) returns (members: seq<Member<Json>>)
    ensures members == PairPatch(name, v, w, cs)
    decreases Size(v), 1
  {
    var same, v', w' := CompareJson(v, w, cs);
    if same {
      return [];
    }
    LeftSize(v, w, cs);
    var nested := GenerateMergePatch(v', w', false);
    return if nested == None then [] else [Member(name, nested.value)];
  }

  /** The sign generate_merge_patch walks by; an exhausted list comes last. */
  method Direction(s: seq<Member<Json>>, t: seq<Member<Json>>) returns (diff: int)
    requires s != [] || t != []
    ensures diff < 0 <==> s != [] && (t == [] || Less(s[0].key, t[0].key))
    ensures diff == 0 <==> s != [] && t != [] && s[0].key == t[0].key
  {
    if s != [] {
      if t != [] {
        LessTotal(s[0].key, t[0].key);
        diff := CompareStrings(s[0].key, t[0].key, true);
      } else {
        diff := -1;
      }
    } else {
      diff := 1;
    }
  }

  /** The walk in step. */
  method GenerateChanges(s: seq<Member<Json>>, t: seq<Member<Json>>, cs: bool) returns (members: seq<Member<Json>>)
    ensures members == GenerateMembers(s, t, cs)
    decreases MembersSize(s), 2
  {
    var fromChild, toChild := s, t;
    members := [];
    while fromChild != [] || toChild != []
      invariant MembersSize(fromChild) <= MembersSize(s)
      invariant members + GenerateMembers(fromChild, toChild, cs) == GenerateMembers(s, t, cs)
      decreases |fromChild| + |toChild|
    {
      var diff := Direction(fromChild, toChild);
      var next;
      ghost var before := (fromChild, toChild);
      if diff < 0 {
        next := [Member(fromChild[0].key, Null)];
        fromChild := fromChild[1..];
      } else if diff > 0 {
        next := [Member(toChild[0].key, toChild[0].value)];
        toChild := toChild[1..];
      } else {
        next := GeneratePair(toChild[0].key, fromChild[0].value, toChild[0].value, cs);
        fromChild, toChild := fromChild[1..], toChild[1..];
      }
      assert GenerateMembers(before.0, before.1, cs) == next + GenerateMembers(fromChild, toChild, cs);
      Regrouped(members, next, GenerateMembers(fromChild, toChild, cs));
      members := members + next;
    }
    assert members + [] == members;
  }

  lemma Regrouped<T>(a: seq<T>, b: seq<T>, c: seq<T>)
    ensures a + (b + c) == a + b + c
  {
  }
}
