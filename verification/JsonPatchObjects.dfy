/** Applying the patches generated for two objects to a copy of the first: exactly when that leaves the second, given that
    it does for the members that are compared further. */
module JsonPatchObjects {
  import opened CStrings
  import opened JsonTrees
  import opened PointerDecode
  import opened MergeSort
  import opened JsonCompare
  import opened JsonPatchApply
  import opened JsonPatchGenerate
  import opened JsonPatchRuns
  import opened JsonPatchMembers
  import opened DecodedNames
  import opened NameRuns

  // ---------- what the walk over two objects writes down ----------

  predicate Paired(f: map<string, Doc>, g: map<string, Doc>, k: string) {
    k in f && k in g && ((f[k].Arr? && g[k].Arr?) || (f[k].Obj? && g[k].Obj?))
  }

  predicate DiffersAt(f: map<string, Doc>, g: map<string, Doc>, k: string) {
    if k in f && k in g then f[k] != g[k] else k in f || k in g
  }

  /** A path of one token is about a member that differs and is not compared further, a longer one about one that is. */
  predicate Tells(c: Change, f: map<string, Doc>, g: map<string, Doc>, cs: bool) {
    c.path != [] &&
    var k := Norm(cs, c.path[0]);
    if |c.path| > 1 then Paired(f, g, k)
    else
      match c
      case Added(_, v) => k !in f && k in g && g[k] == Meaning(v, cs)
      case Removed(_) => k in f && k !in g
      case Replaced(_, v) => k in f && k in g && !Paired(f, g, k) && f[k] != g[k] && g[k] == Meaning(v, cs)
  }

  predicate AllTell(changes: seq<Change>, f: map<string, Doc>, g: map<string, Doc>, cs: bool) {
    forall i :: 0 <= i < |changes| ==> Tells(changes[i], f, g, cs)
  }

  /** Every such member has its change. */
  ghost predicate Covers(changes: seq<Change>, f: map<string, Doc>, g: map<string, Doc>, cs: bool) {
    forall k :: DiffersAt(f, g, k) && !Paired(f, g, k) ==> !NotLevel(changes, k, cs)
  }

  /** And only one. */
  predicate Once(changes: seq<Change>, cs: bool) {
    forall i, j :: 0 <= i < j < |changes| && |changes[i].path| == 1 && |changes[j].path| == 1 ==>
      Norm(cs, changes[i].path[0]) != Norm(cs, changes[j].path[0])
  }

  /** What the walk writes for the members of one name, in front of what it writes for the others. */
  predicate Heads(head: seq<Change>, f: map<string, Doc>, g: map<string, Doc>, key: string, cs: bool) {
    && AllTell(head, f, g, cs) && (forall i :: 0 <= i < |head| ==> Norm(cs, head[i].path[0]) == Norm(cs, key))
    && (DiffersAt(f, g, Norm(cs, key)) && !Paired(f, g, Norm(cs, key)) ==> !NotLevel(head, key, cs))
    && Once(head, cs)
  }

  lemma NormTwice(name: string, cs: bool)
    ensures Norm(cs, Norm(cs, name)) == Norm(cs, name)
  {
    LowerNorm(name, cs);
  }

  lemma TellMore(head: seq<Change>, rest: seq<Change>, key: string, f: map<string, Doc>, g: map<string, Doc>,
                 f': map<string, Doc>, g': map<string, Doc>, cs: bool)
    requires Heads(head, f', g', key, cs)
    requires AllTell(rest, f, g, cs) && Covers(rest, f, g, cs) && Once(rest, cs)
    requires Norm(cs, key) !in f && Norm(cs, key) !in g && f' - {Norm(cs, key)} == f && g' - {Norm(cs, key)} == g
    ensures AllTell(head + rest, f', g', cs) && Covers(head + rest, f', g', cs) && Once(head + rest, cs)
  {
    var all, k := head + rest, Norm(cs, key);
    forall i | 0 <= i < |all| ensures Tells(all[i], f', g', cs) && (i >= |head| ==> Norm(cs, all[i].path[0]) != k) {
      if i >= |head| {
        assert all[i] == rest[i - |head|] && Tells(rest[i - |head|], f, g, cs);
      } else {
        assert Tells(head[i], f', g', cs);
      }
    }
    forall x | DiffersAt(f', g', x) && !Paired(f', g', x) ensures !NotLevel(all, x, cs) {
      if x == k {
        NormTwice(key, cs);
        assert !NotLevel(head, key, cs);
        var i :| 0 <= i < |head| && |head[i].path| == 1 && Norm(cs, head[i].path[0]) == Norm(cs, key);
        assert all[i] == head[i];
      } else {
        assert DiffersAt(f, g, x) && !Paired(f, g, x);
        assert !NotLevel(rest, x, cs);
        var i :| 0 <= i < |rest| && |rest[i].path| == 1 && Norm(cs, rest[i].path[0]) == Norm(cs, x);
        assert all[|head| + i] == rest[i];
      }
    }
    forall i, j | 0 <= i < j < |head| ensures |all[i].path| != 1 || |all[j].path| != 1 {
      assert all[i] == head[i] && all[j] == head[j];
    }
    forall i, j | 0 <= i < j < |all| && j >= |head| && |all[i].path| == 1 && |all[j].path| == 1
      ensures Norm(cs, all[i].path[0]) != Norm(cs, all[j].path[0])
    {
      if i >= |head| {
        assert all[i] == rest[i - |head|] && all[j] == rest[j - |head|];
      } else {
        assert all[i] == head[i];
      }
    }
  }

  lemma OneHeads(c: Change, f: map<string, Doc>, g: map<string, Doc>, key: string, cs: bool)
    requires c.path == [key] && Tells(c, f, g, cs)
    ensures Heads([c], f, g, key, cs)
  {
    assert [c][0] == c;
    NormTwice(key, cs);
  }

  lemma BelowHeads(key: string, v: Json, w: Json, f: map<string, Doc>, g: map<string, Doc>, cs: bool)
    requires var k := Norm(cs, key); k in f && k in g && f[k] == Meaning(v, cs) && g[k] == Meaning(w, cs)
    ensures Heads(AllBelow(key, Changes(v, w, cs)), f, g, key, cs)
  {
    var changes := Changes(v, w, cs);
    var head := AllBelow(key, changes);
    if Replaces(v, w) {
      assert changes == [Replaced([], w)];
      var c := Replaced([key], w);
      assert [key] + [] == [key] && head == [c];
      OneHeads(c, f, g, key, cs);
    } else {
      ChangesInside(v, w, cs);
      forall i | 0 <= i < |head| ensures Tells(head[i], f, g, cs) && |head[i].path| > 1 && head[i].path[0] == key {
        assert changes[i].path != [];
        NoChangeOfLeaves(v, w, cs);
      }
    }
  }

  lemma NoChangeOfLeaves(v: Json, w: Json, cs: bool)
    requires !Replaces(v, w) && Changes(v, w, cs) != []
    ensures (v.Array? && w.Array?) || (v.Object? && w.Object?)
  {
  }

  lemma HeadGone(s: seq<Member<Json>>, cs: bool) returns (k: string)
    requires StrictlyIncreasing(s, cs) && s != []
    ensures k == Norm(cs, s[0].key) && k !in Fields(s[1..], cs) && StrictlyIncreasing(s[1..], cs)
    ensures Fields(s, cs) == Fields(s[1..], cs)[k := Meaning(s[0].value, cs)]
    ensures Fields(s, cs) - {k} == Fields(s[1..], cs)
  {
    k := Norm(cs, s[0].key);
    TailIncreasing(s, cs);
  }

  lemma NotIn(f: map<string, Doc>, k: string)
    requires k !in f
    ensures f - {k} == f
  {
  }

  lemma {:induction false} WalkTells(s: seq<Member<Json>>, t: seq<Member<Json>>, cs: bool)
    requires StrictlyIncreasing(s, cs) && StrictlyIncreasing(t, cs)
    ensures var changes, f, g := MemberChanges(s, t, cs), Fields(s, cs), Fields(t, cs);
      AllTell(changes, f, g, cs) && Covers(changes, f, g, cs) && Once(changes, cs)
    decreases |s| + |t|
  {
    var f, g := Fields(s, cs), Fields(t, cs);
    if s == [] && t == [] {
    } else if s == [] || (t != [] && Before(t[0], s[0], cs)) {
      var k := HeadGone(t, cs);
      AbsentBelow(s, k, cs);
      WalkTells(s, t[1..], cs);
      NotIn(f, k);
      var c := Added([t[0].key], t[0].value);
      OneHeads(c, f, g, t[0].key, cs);
      TellMore([c], MemberChanges(s, t[1..], cs), t[0].key, f, Fields(t[1..], cs), f, g, cs);
    } else if t == [] || Before(s[0], t[0], cs) {
      var k := HeadGone(s, cs);
      AbsentBelow(t, k, cs);
      WalkTells(s[1..], t, cs);
      NotIn(g, k);
      var c := Removed([s[0].key]);
      OneHeads(c, f, g, s[0].key, cs);
      TellMore([c], MemberChanges(s[1..], t, cs), s[0].key, Fields(s[1..], cs), g, f, g, cs);
    } else {
      LessTotal(Norm(cs, s[0].key), Norm(cs, t[0].key));
      var k := HeadGone(s, cs);
      var _ := HeadGone(t, cs);
      WalkTells(s[1..], t[1..], cs);
      BelowHeads(s[0].key, s[0].value, t[0].value, f, g, cs);
      TellMore(AllBelow(s[0].key, Changes(s[0].value, t[0].value, cs)), MemberChanges(s[1..], t[1..], cs), s[0].key,
               Fields(s[1..], cs), Fields(t[1..], cs), f, g, cs);
    }
  }

  // ---------- what it writes down below one member ----------

  lemma {:induction false} StripJoin(a: seq<Change>, b: seq<Change>, n: string, cs: bool)
    ensures Strip(a + b, n, cs) == Strip(a, n, cs) + Strip(b, n, cs)
    decreases |a|
  {
    if a == [] {
      assert a + b == b;
    } else {
      assert (a + b)[1..] == a[1..] + b;
      StripJoin(a[1..], b, n, cs);
    }
  }

  lemma {:induction false} StripBelow(key: string, changes: seq<Change>, n: string, cs: bool)
    requires AllInside(changes) && Norm(cs, key) == Norm(cs, n)
    ensures Strip(AllBelow(key, changes), n, cs) == changes
    decreases |changes|
  {
    if changes != [] {
      var c, below := changes[0], AllBelow(key, changes);
      assert ([key] + c.path)[1..] == c.path && Inside(Below(key, c)) == c;
      assert below[1..] == AllBelow(key, changes[1..]) && c.path != [];
      StripBelow(key, changes[1..], n, cs);
      assert changes == [c] + changes[1..];
    }
  }

  lemma {:induction false} StripNone(changes: seq<Change>, n: string, cs: bool)
    requires forall i :: 0 <= i < |changes| && |changes[i].path| > 1 ==> Norm(cs, changes[i].path[0]) != Norm(cs, n)
    ensures Strip(changes, n, cs) == []
    decreases |changes|
  {
    if changes != [] {
      forall i | 0 <= i < |changes| - 1 && |changes[1..][i].path| > 1 ensures Norm(cs, changes[1..][i].path[0]) != Norm(cs, n) {
        assert changes[i + 1] == changes[1..][i];
      }
      StripNone(changes[1..], n, cs);
    }
  }

  /** Only members that are compared further have changes below them. */
  lemma StripUnpaired(changes: seq<Change>, f: map<string, Doc>, g: map<string, Doc>, n: string, cs: bool)
    requires AllTell(changes, f, g, cs) && !Paired(f, g, Norm(cs, n))
    ensures Strip(changes, n, cs) == []
  {
    forall i | 0 <= i < |changes| && |changes[i].path| > 1 ensures Norm(cs, changes[i].path[0]) != Norm(cs, n) {
      assert Tells(changes[i], f, g, cs);
    }
    StripNone(changes, n, cs);
  }

  predicate Containers(v: Json, w: Json) {
    (v.Array? && w.Array?) || (v.Object? && w.Object?)
  }

  lemma {:induction false} WalkStrip(s: seq<Member<Json>>, t: seq<Member<Json>>, m: Member<Json>, n: Member<Json>, cs: bool)
    requires StrictlyIncreasing(s, cs) && StrictlyIncreasing(t, cs) && m in s && n in t
    requires Norm(cs, m.key) == Norm(cs, n.key) && Containers(m.value, n.value)
    ensures Strip(MemberChanges(s, t, cs), m.key, cs) == Changes(m.value, n.value, cs)
    decreases |s| + |t|
  {
    var name := m.key;
    MemberIsField(s, m, cs);
    MemberIsField(t, n, cs);
    if t != [] && (s == [] || Before(t[0], s[0], cs)) {
      var k := HeadGone(t, cs);
      AbsentBelow(s, k, cs);
      WalkStrip(s, t[1..], m, n, cs);
    } else if s != [] && (t == [] || Before(s[0], t[0], cs)) {
      var k := HeadGone(s, cs);
      AbsentBelow(t, k, cs);
      WalkStrip(s[1..], t, m, n, cs);
    } else {
      LessTotal(Norm(cs, s[0].key), Norm(cs, t[0].key));
      var k := HeadGone(s, cs);
      var _ := HeadGone(t, cs);
      var head := AllBelow(s[0].key, Changes(s[0].value, t[0].value, cs));
      var rest := MemberChanges(s[1..], t[1..], cs);
      StripJoin(head, rest, name, cs);
      if Norm(cs, name) == k {
        OnlyHead(s, m, cs);
        OnlyHead(t, n, cs);
        ChangesInside(m.value, n.value, cs);
        StripBelow(s[0].key, Changes(m.value, n.value, cs), name, cs);
        WalkTells(s[1..], t[1..], cs);
        StripUnpaired(rest, Fields(s[1..], cs), Fields(t[1..], cs), name, cs);
      } else {
        StripNone(head, name, cs);
        WalkStrip(s[1..], t[1..], m, n, cs);
      }
    }
  }

  lemma OnlyHead(s: seq<Member<Json>>, m: Member<Json>, cs: bool)
    requires StrictlyIncreasing(s, cs) && m in s && Norm(cs, m.key) == Norm(cs, s[0].key)
    ensures m == s[0]
  {
    if m in s[1..] {
      var k := HeadGone(s, cs);
      MemberIsField(s[1..], m, cs);
    }
  }

  lemma MemberIsField(s: seq<Member<Json>>, m: Member<Json>, cs: bool)
    requires StrictlyIncreasing(s, cs) && m in s
    ensures Norm(cs, m.key) in Fields(s, cs) && Fields(s, cs)[Norm(cs, m.key)] == Meaning(m.value, cs)
  {
    StrictIsDistinct(s, cs);
    FieldsAt(s, IndexOf(s, m), cs);
  }

  lemma StrictIsDistinct(s: seq<Member<Json>>, cs: bool)
    requires StrictlyIncreasing(s, cs)
    ensures DistinctUnder(s, cs)
  {
    forall i, j | 0 <= i < j < |s| ensures Norm(cs, s[i].key) != Norm(cs, s[j].key) {
      LessTotal(Norm(cs, s[i].key), Norm(cs, s[j].key));
    }
  }

  // ---------- every name that ends a path has to be restored ----------

  /** The change does not touch the member `k`: its path ends in a name that, as it is decoded, differs in more than case,
      or goes on below another one. */
  predicate Misses(c: Change, k: string, cs: bool) {
    c.path != [] && if |c.path| == 1 then Lower(Decoded(c.path[0])) != Lower(k) else Norm(cs, c.path[0]) != Norm(cs, k)
  }

  lemma NormLower(a: string, b: string, cs: bool)
    requires Norm(cs, a) == Norm(cs, b)
    ensures Lower(a) == Lower(b)
  {
    LowerNorm(a, cs);
    LowerNorm(b, cs);
  }

  lemma RemoveMisses(members: seq<Member<Json>>, name: string, k: string, cs: bool)
    requires Lower(name) != Lower(k) && KeyIndex(members, name, false) < |members|
    ensures ObjectItem(Object(RemoveAt(members, KeyIndex(members, name, false))), k, cs) == ObjectItem(Object(members), k, cs)
  {
    var i := KeyIndex(members, name, false);
    if Norm(cs, members[i].key) == Norm(cs, k) {
      NormLower(members[i].key, k, cs);
    }
    HeldRemove(members, i, k, cs);
  }

  lemma SetMisses(members: seq<Member<Json>>, name: string, value: Json, k: string, cs: bool)
    requires Lower(name) != Lower(k)
    ensures ObjectItem(Object(SetMember(members, name, value, cs)), k, cs) == ObjectItem(Object(members), k, cs)
  {
    if Norm(cs, name) == Norm(cs, k) {
      NormLower(name, k, cs);
    }
    var i, m := KeyIndex(members, name, cs), Member(name, value);
    HeldAppend(Exactly(members, name, cs), m, k, cs);
    if i < |members| {
      HeldRemove(members, i, k, cs);
    }
  }

  lemma StepMisses(j: Json, c: Change, k: string, cs: bool)
    requires j.Object? && Misses(c, k, cs)
    ensures var r := Stepped(j, c, cs); r.Some? ==> r.value.Object? && ObjectItem(r.value, k, cs) == ObjectItem(j, k, cs)
  {
    if |c.path| == 1 {
      var n := Decoded(c.path[0]);
      var i := KeyIndex(j.members, n, false);
      LevelStep(j.members, c, cs);
      if !c.Added? && i < |j.members| {
        RemoveMisses(j.members, n, k, cs);
      }
      match c
      case Added(_, v) => SetMisses(j.members, n, v, k, cs);
      case Removed(_) =>
      case Replaced(_, v) =>
        if i < |j.members| {
          SetMisses(RemoveAt(j.members, i), n, v, k, cs);
        }
    } else {
      DeepStep(j, c, cs);
      var i, r := KeyIndex(j.members, c.path[0], cs), Stepped(j, c, cs);
      if r.Some? {
        HeldSet(j.members, i, Stepped(j.members[i].value, Inside(c), cs).value, k, cs);
      }
    }
  }

  lemma {:induction false} RunMisses(j: Json, changes: seq<Change>, k: string, cs: bool)
    requires j.Object? && forall i :: 0 <= i < |changes| ==> Misses(changes[i], k, cs)
    ensures var r := RunOf(j, changes, cs); r.Some? ==> r.value.Object? && ObjectItem(r.value, k, cs) == ObjectItem(j, k, cs)
    decreases |changes|
  {
    if changes != [] {
      assert Misses(changes[0], k, cs);
      StepMisses(j, changes[0], k, cs);
      var r := Stepped(j, changes[0], cs);
      if r.Some? {
        RunMisses(r.value, changes[1..], k, cs);
      }
    }
  }

  function LostNames(changes: seq<Change>): set<string> {
    set c | c in changes && |c.path| == 1 && !Restorable(c.path[0]) :: c.path[0]
  }

  lemma LostDiffers(changes: seq<Change>, n: string, f: map<string, Doc>, g: map<string, Doc>, cs: bool)
    requires AllTell(changes, f, g, cs) && n in LostNames(changes)
    ensures !Restorable(n) && DiffersAt(f, g, Norm(cs, n)) && !Paired(f, g, Norm(cs, n))
  {
    var c :| c in changes && |c.path| == 1 && !Restorable(c.path[0]) && c.path[0] == n;
    var i :| 0 <= i < |changes| && changes[i] == c;
    assert Tells(changes[i], f, g, cs);
  }

  /** The lightest name that is lost is not touched at all. */
  lemma LightestMissed(changes: seq<Change>, n: string, f: map<string, Doc>, g: map<string, Doc>, i: nat, cs: bool)
    requires AllTell(changes, f, g, cs) && i < |changes|
    requires n in LostNames(changes) && forall m :: m in LostNames(changes) ==> Weight(n) <= Weight(m)
    ensures Misses(changes[i], n, cs)
  {
    LostDiffers(changes, n, f, g, cs);
    var c := changes[i];
    assert Tells(c, f, g, cs);
    if |c.path| == 1 {
      assert !Restorable(c.path[0]) ==> c.path[0] in LostNames(changes);
      Missed(n, c.path[0]);
    }
  }

  lemma MissedIsSame(j: Json, changes: seq<Change>, r: Json, n: string, cs: bool)
    requires j.Object? && RunOf(j, changes, cs) == Some(r) && r.Object?
    requires forall i :: 0 <= i < |changes| ==> Misses(changes[i], n, cs)
    ensures !DiffersAt(Fields(j.members, cs), Fields(r.members, cs), Norm(cs, n))
  {
    RunMisses(j, changes, n, cs);
    FieldsLookup(j.members, n, cs);
    FieldsLookup(r.members, n, cs);
  }

  /** A run that ends right loses no name: nothing would have touched the lightest of them. */
  lemma NoneLost(j: Json, changes: seq<Change>, r: Json, f: map<string, Doc>, g: map<string, Doc>, cs: bool)
    requires j.Object? && Fields(j.members, cs) == f && AllTell(changes, f, g, cs)
    requires RunOf(j, changes, cs) == Some(r) && r.Object? && Fields(r.members, cs) == g
    ensures LostNames(changes) == {}
  {
    if LostNames(changes) != {} {
      var n := Lightest(LostNames(changes));
      forall i | 0 <= i < |changes| ensures Misses(changes[i], n, cs) {
        LightestMissed(changes, n, f, g, i, cs);
      }
      LostDiffers(changes, n, f, g, cs);
      MissedIsSame(j, changes, r, n, cs);
    }
  }

  lemma NoneLostRestored(changes: seq<Change>)
    requires LostNames(changes) == {}
    ensures EndsRestored(changes)
  {
    forall i | 0 <= i < |changes| && |changes[i].path| == 1 ensures Restorable(changes[i].path[0]) {
      var c := changes[i];
      if !Restorable(c.path[0]) {
        IsLost(changes, c);
      }
    }
  }

  lemma IsLost(changes: seq<Change>, c: Change)
    requires c in changes && |c.path| == 1 && !Restorable(c.path[0])
    ensures c.path[0] in LostNames(changes)
  {
  }

  // ---------- the rows and what becomes of them ----------

  lemma {:induction false} RowFields(members: seq<Member<Json>>, k: string, x: string, cs: bool)
    ensures x in Row(members, k, cs) <==> x in Fields(members, cs) && Lower(x) == k
  {
    if members != [] {
      RowFields(members[1..], k, x, cs);
      LowerNorm(members[0].key, cs);
    }
  }

  lemma {:induction false} FieldsNormal(members: seq<Member<Json>>, x: string, cs: bool)
    requires x in Fields(members, cs)
    ensures Norm(cs, x) == x
  {
    var i := FieldsOnly(members, x, cs);
    NormTwice(members[i].key, cs);
  }

  lemma {:induction false} OpsFrom(changes: seq<Change>, k: string, op: Op, cs: bool) returns (i: nat)
    requires op in OpsOf(changes, k, cs)
    ensures i < |changes| && |changes[i].path| == 1 && Lower(changes[i].path[0]) == k && OpOf(changes[i], cs) == op
    decreases |changes|
  {
    if op in OpsOf(changes[1..], k, cs) {
      i := OpsFrom(changes[1..], k, op, cs);
      i := i + 1;
    } else {
      i := 0;
    }
  }

  lemma {:induction false} OpsHave(changes: seq<Change>, i: nat, cs: bool)
    requires i < |changes| && |changes[i].path| == 1
    ensures OpOf(changes[i], cs) in OpsOf(changes, Lower(changes[i].path[0]), cs)
    decreases i
  {
    if i > 0 {
      OpsHave(changes[1..], i - 1, cs);
    }
  }

  lemma OnceTail(changes: seq<Change>, cs: bool)
    requires Once(changes, cs) && changes != []
    ensures Once(changes[1..], cs) && (|changes[0].path| == 1 ==> NotLevel(changes[1..], changes[0].path[0], cs))
  {
    var rest := changes[1..];
    forall i, j | 0 <= i < j < |rest| && |rest[i].path| == 1 && |rest[j].path| == 1
      ensures Norm(cs, rest[i].path[0]) != Norm(cs, rest[j].path[0])
    {
      assert rest[i] == changes[i + 1] && rest[j] == changes[j + 1];
    }
    if |changes[0].path| == 1 {
      forall i | 0 <= i < |rest| && |rest[i].path| == 1 ensures Norm(cs, rest[i].path[0]) != Norm(cs, changes[0].path[0]) {
        assert rest[i] == changes[i + 1];
      }
    }
  }

  lemma {:induction false} OpsDistinct(changes: seq<Change>, k: string, cs: bool)
    requires Once(changes, cs)
    ensures Distinct(Names(OpsOf(changes, k, cs)))
    decreases |changes|
  {
    if changes != [] {
      OnceTail(changes, cs);
      OpsDistinct(changes[1..], k, cs);
      var c, rest := changes[0], OpsOf(changes[1..], k, cs);
      if |c.path| == 1 && Lower(c.path[0]) == k {
        forall op | op in rest ensures op.name != OpOf(c, cs).name {
          OpsNotLevel(changes[1..], c.path[0], k, op, cs);
        }
        FirstDistinct(OpOf(c, cs), rest);
      }
    }
  }

  lemma FirstDistinct(op: Op, rest: seq<Op>)
    requires Distinct(Names(rest)) && forall o :: o in rest ==> o.name != op.name
    ensures Distinct(Names([op] + rest))
  {
    var all := [op] + rest;
    forall i, j | 0 <= i < j < |all| ensures Names(all)[i] != Names(all)[j] {
      assert rest[j - 1] in rest;
      if i > 0 {
        assert Names(rest)[i - 1] != Names(rest)[j - 1];
      }
    }
  }

  /** The changes are those from `f` to `g`. */
  ghost predicate Leads(changes: seq<Change>, f: map<string, Doc>, g: map<string, Doc>, cs: bool) {
    AllTell(changes, f, g, cs) && Covers(changes, f, g, cs) && Once(changes, cs)
  }

  lemma RowSound(members: seq<Member<Json>>, changes: seq<Change>, g: map<string, Doc>, k: string, cs: bool)
    requires DistinctUnder(members, cs) && Leads(changes, Fields(members, cs), g, cs)
    ensures Sound(Row(members, k, cs), OpsOf(changes, k, cs))
  {
    var row, ops := Row(members, k, cs), OpsOf(changes, k, cs);
    RowDistinct(members, k, cs);
    OpsDistinct(changes, k, cs);
    forall op | op in ops ensures op.name in row <==> !op.Append? {
      var i := OpsFrom(changes, k, op, cs);
      assert Tells(changes[i], Fields(members, cs), g, cs);
      LowerNorm(changes[i].path[0], cs);
      RowFields(members, k, op.name, cs);
    }
  }

  /** The names that are wanted are those of the goal. */
  lemma WantedIsGoal(members: seq<Member<Json>>, changes: seq<Change>, g: map<string, Doc>, k: string, n: string, cs: bool)
    requires Leads(changes, Fields(members, cs), g, cs) && forall x :: x in g ==> Norm(cs, x) == x
    ensures Wanted(n, Row(members, k, cs), OpsOf(changes, k, cs)) <==> n in g && Lower(n) == k
  {
    var f, ops := Fields(members, cs), OpsOf(changes, k, cs);
    RowFields(members, k, n, cs);
    if Pop(n) in ops {
      var i := OpsFrom(changes, k, Pop(n), cs);
      assert Tells(changes[i], f, g, cs);
    }
    if Append(n) in ops {
      var i := OpsFrom(changes, k, Append(n), cs);
      assert Tells(changes[i], f, g, cs);
      LowerNorm(changes[i].path[0], cs);
    }
    if (n in f) != (n in g) && Lower(n) == k {
      if n in f {
        FieldsNormal(members, n, cs);
      }
      HasOp(changes, f, g, n, cs);
    }
  }

  lemma HasOp(changes: seq<Change>, f: map<string, Doc>, g: map<string, Doc>, n: string, cs: bool)
    requires Leads(changes, f, g, cs) && (n in f) != (n in g) && Norm(cs, n) == n
    ensures (if n in f then Pop(n) else Append(n)) in OpsOf(changes, Lower(n), cs)
  {
    assert DiffersAt(f, g, n) && !Paired(f, g, n);
    assert !NotLevel(changes, n, cs);
    var i :| 0 <= i < |changes| && |changes[i].path| == 1 && Norm(cs, changes[i].path[0]) == Norm(cs, n);
    assert Tells(changes[i], f, g, cs);
    NormLower(changes[i].path[0], n, cs);
    OpsHave(changes, i, cs);
  }

  // ---------- one object ----------

  /** The run leaves a tree with this meaning. */
  predicate RightRun(doc: Json, changes: seq<Change>, goal: Doc, cs: bool) {
    var r := RunOf(doc, changes, cs);
    r.Some? && Meaning(r.value, cs) == goal
  }

  /** The members of the copy `d`: among those whose names are equal up to case, the ones that are removed or replaced stand
      in front of all others, and one that is replaced stands no later than its turn comes. */
  predicate RowsStand(d: seq<Member<Json>>, changes: seq<Change>, s: seq<Member<Json>>, cs: bool) {
    forall m | m in s :: Standing(Row(d, Lower(m.key), cs), Takers(OpsOf(changes, Lower(m.key), cs)))
  }

  predicate PairRight(d: seq<Member<Json>>, m: Member<Json>, n: Member<Json>, cs: bool) {
    Containers(m.value, n.value) ==>
      var held := ObjectItem(Object(d), m.key, cs);
      held.Some? && RightRun(held.value, Changes(m.value, n.value, cs), Meaning(n.value, cs), cs)
  }

  predicate PairsRight(d: seq<Member<Json>>, s: seq<Member<Json>>, t: seq<Member<Json>>, cs: bool) {
    forall m, n | m in s && n in t && Norm(cs, m.key) == Norm(cs, n.key) :: PairRight(d, m, n, cs)
  }

  predicate Walk(d: seq<Member<Json>>, s: seq<Member<Json>>, t: seq<Member<Json>>, changes: seq<Change>, cs: bool) {
    && StrictlyIncreasing(s, cs) && StrictlyIncreasing(t, cs) && changes == MemberChanges(s, t, cs)
    && DistinctUnder(d, cs) && Fields(d, cs) == Fields(s, cs)
  }

  lemma WalkLeads(d: seq<Member<Json>>, s: seq<Member<Json>>, t: seq<Member<Json>>, changes: seq<Change>, cs: bool)
    requires Walk(d, s, t, changes, cs)
    ensures Leads(changes, Fields(d, cs), Fields(t, cs), cs) && AllInside(changes)
    ensures forall x :: x in Fields(t, cs) ==> Norm(cs, x) == x
  {
    WalkTells(s, t, cs);
    forall i | 0 <= i < |changes| ensures changes[i].path != [] {
      assert Tells(changes[i], Fields(s, cs), Fields(t, cs), cs);
    }
    forall x | x in Fields(t, cs) ensures Norm(cs, x) == x {
      FieldsNormal(t, x, cs);
    }
  }

  /** At the end of a right run the rows hold the names that are wanted. */
  lemma RightRowStands(d: seq<Member<Json>>, changes: seq<Change>, r: seq<Member<Json>>, k: string, cs: bool)
    requires DistinctUnder(d, cs) && Leads(changes, Fields(d, cs), Fields(r, cs), cs) && AllInside(changes)
    requires forall x :: x in Fields(r, cs) ==> Norm(cs, x) == x
    requires EndsRestored(changes) && RunOf(Object(d), changes, cs) == Some(Object(r))
    ensures Standing(Row(d, k, cs), Takers(OpsOf(changes, k, cs)))
  {
    RowSound(d, changes, Fields(r, cs), k, cs);
    RunRow(Object(d), changes, Object(r), k, cs);
    forall n ensures n in Row(r, k, cs) <==> Wanted(n, Row(d, k, cs), OpsOf(changes, k, cs)) {
      WantedIsGoal(d, changes, Fields(r, cs), k, n, cs);
      RowFields(r, k, n, cs);
    }
    RightIffStanding(Row(d, k, cs), OpsOf(changes, k, cs));
  }

  lemma PairedNotLevel(changes: seq<Change>, f: map<string, Doc>, g: map<string, Doc>, n: string, cs: bool)
    requires AllTell(changes, f, g, cs) && (Paired(f, g, Norm(cs, n)) || !DiffersAt(f, g, Norm(cs, n)))
    ensures NotLevel(changes, n, cs)
  {
    forall i | 0 <= i < |changes| && |changes[i].path| == 1 ensures Norm(cs, changes[i].path[0]) != Norm(cs, n) {
      assert Tells(changes[i], f, g, cs);
    }
  }

  lemma PairIsPaired(s: seq<Member<Json>>, t: seq<Member<Json>>, m: Member<Json>, n: Member<Json>, cs: bool)
    requires StrictlyIncreasing(s, cs) && StrictlyIncreasing(t, cs) && m in s && n in t
    requires Norm(cs, m.key) == Norm(cs, n.key) && Containers(m.value, n.value)
    ensures Paired(Fields(s, cs), Fields(t, cs), Norm(cs, m.key))
    ensures Fields(t, cs)[Norm(cs, m.key)] == Meaning(n.value, cs)
  {
    MemberIsField(s, m, cs);
    MemberIsField(t, n, cs);
  }

  lemma RightPair(d: seq<Member<Json>>, s: seq<Member<Json>>, t: seq<Member<Json>>, changes: seq<Change>, r: Json,
                  m: Member<Json>, n: Member<Json>, cs: bool)
    requires Walk(d, s, t, changes, cs) && EndsRestored(changes) && m in s && n in t && Norm(cs, m.key) == Norm(cs, n.key)
    requires RunOf(Object(d), changes, cs) == Some(r) && Meaning(r, cs) == Obj(Fields(t, cs))
    ensures PairRight(d, m, n, cs)
  {
    if Containers(m.value, n.value) {
      var name := m.key;
      WalkLeads(d, s, t, changes, cs);
      PairIsPaired(s, t, m, n, cs);
      PairedNotLevel(changes, Fields(s, cs), Fields(t, cs), name, cs);
      FieldsLookup(r.members, name, cs);
      var v := ChildRun(Object(d), changes, name, r, cs);
      WalkStrip(s, t, m, n, cs);
    }
  }

  lemma ObjectOnlyIf(d: seq<Member<Json>>, s: seq<Member<Json>>, t: seq<Member<Json>>, changes: seq<Change>, cs: bool)
    requires Walk(d, s, t, changes, cs) && RightRun(Object(d), changes, Obj(Fields(t, cs)), cs)
    ensures EndsRestored(changes) && RowsStand(d, changes, s, cs) && PairsRight(d, s, t, cs)
  {
    var r := RunOf(Object(d), changes, cs).value;
    WalkLeads(d, s, t, changes, cs);
    NoneLost(Object(d), changes, r, Fields(s, cs), Fields(t, cs), cs);
    NoneLostRestored(changes);
    forall m | m in s ensures Standing(Row(d, Lower(m.key), cs), Takers(OpsOf(changes, Lower(m.key), cs))) {
      RightRowStands(d, changes, r.members, Lower(m.key), cs);
    }
    forall m, n | m in s && n in t && Norm(cs, m.key) == Norm(cs, n.key) ensures PairRight(d, m, n, cs) {
      RightPair(d, s, t, changes, r, m, n, cs);
    }
  }

  // ---------- the other way round ----------

  /** Rows of other names hold nothing to be taken. */
  lemma RowRuns(d: seq<Member<Json>>, s: seq<Member<Json>>, t: seq<Member<Json>>, changes: seq<Change>, k: string, cs: bool)
    returns (row: seq<string>)
    requires Walk(d, s, t, changes, cs) && RowsStand(d, changes, s, cs)
    ensures Run(Row(d, k, cs), OpsOf(changes, k, cs)) == Some(row)
    ensures forall n :: n in row <==> n in Fields(t, cs) && Lower(n) == k
  {
    WalkLeads(d, s, t, changes, cs);
    var ops := OpsOf(changes, k, cs);
    RowSound(d, changes, Fields(t, cs), k, cs);
    if Takers(ops) != [] {
      var op := Takers(ops)[0];
      assert op in Takers(ops);
      var i := OpsFrom(changes, k, op, cs);
      assert Tells(changes[i], Fields(s, cs), Fields(t, cs), cs);
      var j := FieldsOnly(s, op.name, cs);
      NormLower(s[j].key, changes[i].path[0], cs);
      assert s[j] in s;
    }
    assert Standing(Row(d, k, cs), Takers(ops));
    RightIffStanding(Row(d, k, cs), ops);
    row := Run(Row(d, k, cs), ops).value;
    forall n ensures n in row <==> n in Fields(t, cs) && Lower(n) == k {
      WantedIsGoal(d, changes, Fields(t, cs), k, n, cs);
    }
  }

  /** The members that are compared further, from their name on. */
  lemma PairOf(s: seq<Member<Json>>, t: seq<Member<Json>>, k: string, cs: bool) returns (m: Member<Json>, n: Member<Json>)
    requires Paired(Fields(s, cs), Fields(t, cs), k)
    ensures m in s && n in t && Norm(cs, m.key) == Norm(cs, n.key) == k && Containers(m.value, n.value)
    ensures Fields(t, cs)[k] == Meaning(n.value, cs)
  {
    var i := FieldsOnly(s, k, cs);
    var j := FieldsOnly(t, k, cs);
    m, n := s[i], t[j];
  }

  lemma PairDeepFine(d: seq<Member<Json>>, s: seq<Member<Json>>, t: seq<Member<Json>>, changes: seq<Change>, name: string, cs: bool)
    requires Walk(d, s, t, changes, cs) && RowsStand(d, changes, s, cs) && PairsRight(d, s, t, cs)
    requires Paired(Fields(s, cs), Fields(t, cs), Norm(cs, name))
    ensures DeepFine(d, changes, name, cs)
    ensures RightRun(ObjectItem(Object(d), name, cs).value, Strip(changes, name, cs), Fields(t, cs)[Norm(cs, name)], cs)
  {
    var k := Norm(cs, name);
    var m, n := PairOf(s, t, k, cs);
    WalkLeads(d, s, t, changes, cs);
    PairedNotLevel(changes, Fields(s, cs), Fields(t, cs), name, cs);
    assert PairRight(d, m, n, cs);
    SameNameIndex(d, m.key, name, cs);
    WalkStrip(s, t, m, n, cs);
    StripSame(changes, m.key, name, cs);
    var row := RowRuns(d, s, t, changes, Lower(name), cs);
    LowerNorm(name, cs);
  }

  lemma {:induction false} StripSame(changes: seq<Change>, a: string, b: string, cs: bool)
    requires Norm(cs, a) == Norm(cs, b)
    ensures Strip(changes, a, cs) == Strip(changes, b, cs)
    decreases |changes|
  {
    if changes != [] {
      StripSame(changes[1..], a, b, cs);
    }
  }

  lemma AllDeep(d: seq<Member<Json>>, s: seq<Member<Json>>, t: seq<Member<Json>>, changes: seq<Change>, cs: bool)
    requires Walk(d, s, t, changes, cs) && RowsStand(d, changes, s, cs) && PairsRight(d, s, t, cs)
    ensures AllDeepFine(d, changes, cs) && RowsRun(d, changes, cs)
  {
    WalkLeads(d, s, t, changes, cs);
    forall i | 0 <= i < |changes| && |changes[i].path| > 1 ensures DeepFine(d, changes, changes[i].path[0], cs) {
      assert Tells(changes[i], Fields(s, cs), Fields(t, cs), cs);
      PairDeepFine(d, s, t, changes, changes[i].path[0], cs);
    }
    forall k ensures Run(Row(d, k, cs), OpsOf(changes, k, cs)).Some? {
      var row := RowRuns(d, s, t, changes, k, cs);
    }
  }

  /** The value of each member at the end. */
  lemma EndValue(d: seq<Member<Json>>, s: seq<Member<Json>>, t: seq<Member<Json>>, changes: seq<Change>, r: Json, k: string, cs: bool)
    requires Walk(d, s, t, changes, cs) && RowsStand(d, changes, s, cs) && PairsRight(d, s, t, cs) && EndsRestored(changes)
    requires RunOf(Object(d), changes, cs) == Some(r) && r.Object? && k in Fields(r.members, cs) && k in Fields(t, cs)
    ensures Fields(r.members, cs)[k] == Fields(t, cs)[k]
  {
    var f, g := Fields(s, cs), Fields(t, cs);
    WalkLeads(d, s, t, changes, cs);
    FieldsNormal(t, k, cs);
    FieldsLookup(r.members, k, cs);
    FieldsLookup(d, k, cs);
    if Paired(f, g, k) {
      PairDeepFine(d, s, t, changes, k, cs);
      PairedNotLevel(changes, f, g, k, cs);
      var v := ChildRun(Object(d), changes, k, r, cs);
    } else if !DiffersAt(f, g, k) {
      PairedNotLevel(changes, f, g, k, cs);
      StripUnpaired(changes, f, g, k, cs);
      var v := ChildRun(Object(d), changes, k, r, cs);
    } else {
      assert !NotLevel(changes, k, cs);
      var i :| 0 <= i < |changes| && |changes[i].path| == 1 && Norm(cs, changes[i].path[0]) == Norm(cs, k);
      LevelValue(d, changes, i, r, f, g, cs);
      SameNameIndex(r.members, changes[i].path[0], k, cs);
    }
  }

  lemma LevelValue(d: seq<Member<Json>>, changes: seq<Change>, i: nat, r: Json, f: map<string, Doc>, g: map<string, Doc>, cs: bool)
    requires DistinctUnder(d, cs) && AllTell(changes, f, g, cs) && Once(changes, cs) && AllInside(changes) && EndsRestored(changes)
    requires i < |changes| && |changes[i].path| == 1 && Norm(cs, changes[i].path[0]) in g
    requires RunOf(Object(d), changes, cs) == Some(r) && r.Object? && ObjectItem(r, changes[i].path[0], cs).Some?
    ensures Meaning(ObjectItem(r, changes[i].path[0], cs).value, cs) == g[Norm(cs, changes[i].path[0])]
  {
    var c, before, behind := changes[i], changes[..i], changes[i + 1..];
    var name := c.path[0];
    assert changes == before + [c] + behind;
    assert Tells(changes[i], f, g, cs);
    forall x | 0 <= x < |behind| && |behind[x].path| == 1 ensures Norm(cs, behind[x].path[0]) != Norm(cs, name) {
      assert behind[x] == changes[i + 1 + x];
    }
    forall x | 0 <= x < |behind| && |behind[x].path| > 1 ensures Norm(cs, behind[x].path[0]) != Norm(cs, name) {
      assert behind[x] == changes[i + 1 + x] && Tells(changes[i + 1 + x], f, g, cs);
    }
    StripNone(behind, name, cs);
    ValueStays(Object(d), before, c, behind, r, cs);
  }

  lemma ObjectIf(d: seq<Member<Json>>, s: seq<Member<Json>>, t: seq<Member<Json>>, changes: seq<Change>, cs: bool)
    requires Walk(d, s, t, changes, cs)
    requires EndsRestored(changes) && RowsStand(d, changes, s, cs) && PairsRight(d, s, t, cs)
    ensures RightRun(Object(d), changes, Obj(Fields(t, cs)), cs)
  {
    WalkLeads(d, s, t, changes, cs);
    AllDeep(d, s, t, changes, cs);
    var r := RunSucceeds(Object(d), changes, cs);
    RunDistinct(Object(d), changes, r, cs);
    var f, g := Fields(r.members, cs), Fields(t, cs);
    forall k ensures k in f <==> k in g {
      var row := RowRuns(d, s, t, changes, Lower(k), cs);
      RunRow(Object(d), changes, r, Lower(k), cs);
      RowFields(r.members, Lower(k), k, cs);
    }
    forall k | k in f ensures f[k] == g[k] {
      EndValue(d, s, t, changes, r, k, cs);
    }
    assert f == g;
  }
}
