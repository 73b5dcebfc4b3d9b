/**
 Names in a row, of which some are to go: each removal takes the first name in the row away, whichever it is. So it is with
 the members of an object whose names are equal up to letter case, when detach_path removes one of them.
 */
module NameRuns {
  import opened CStrings

  /** To append a name; to take the first one, meaning this one; and to do both. */
  datatype Op = Append(name: string) | Pop(name: string) | Swap(name: string)

  function Without(s: seq<string>, x: string): (r: seq<string>)
    ensures x !in s ==> r == s
  {
    if s == [] then []
    else if s[0] == x then s[1..]
    else [s[0]] + Without(s[1..], x)
  }

  function Done(s: seq<string>, op: Op): Option<seq<string>> {
    match op
    case Append(n) => Some(Without(s, n) + [n])
    case Pop(_) => if s == [] then None else Some(s[1..])
    case Swap(n) => if s == [] then None else Some(Without(s[1..], n) + [n])
  }

  function Run(s: seq<string>, ops: seq<Op>): Option<seq<string>>
    decreases |ops|
  {
    if ops == [] then Some(s)
    else
      var r := Done(s, ops[0]);
      if r == None then None else Run(r.value, ops[1..])
  }

  /** The operations that take a name away, in their order. */
  function Takers(ops: seq<Op>): (r: seq<Op>)
    ensures |r| <= |ops|
    ensures forall op :: op in r <==> op in ops && !op.Append?
  {
    if ops == [] then [] else (if ops[0].Append? then [] else [ops[0]]) + Takers(ops[1..])
  }

  function Names(ops: seq<Op>): (r: seq<string>)
    ensures |r| == |ops| && forall i :: 0 <= i < |r| ==> r[i] == ops[i].name
  {
    seq(|ops|, i requires 0 <= i < |ops| => ops[i].name)
  }

  /** The names to be taken stand in front of all others, and one that comes again stands no later than its turn comes. */
  predicate Standing(s: seq<string>, takers: seq<Op>) {
    && |takers| <= |s|
    && (forall i :: 0 <= i < |takers| ==> s[i] in Names(takers))
    && (forall i :: 0 <= i < |takers| && takers[i].Swap? ==> takers[i].name in s[..i + 1])
  }

  predicate Distinct(s: seq<string>) {
    forall i, j :: 0 <= i < j < |s| ==> s[i] != s[j]
  }

  /** Each name is the name of one operation at most, what is appended is new, and what is taken is there. */
  predicate Sound(s: seq<string>, ops: seq<Op>) {
    && Distinct(s) && Distinct(Names(ops))
    && forall op :: op in ops ==> (op.name in s <==> !op.Append?)
  }

  /** What is to be in the row at the end. */
  predicate Wanted(n: string, s: seq<string>, ops: seq<Op>) {
    (n in s && Pop(n) !in ops) || Append(n) in ops
  }

  // ---------- rows ----------

  lemma {:induction false} WithoutNames(s: seq<string>, x: string)
    requires Distinct(s)
    ensures Distinct(Without(s, x)) && forall n :: n in Without(s, x) <==> n in s && n != x
    decreases |s|
  {
    if s != [] {
      assert Distinct(s[1..]);
      WithoutNames(s[1..], x);
      assert s[0] !in s[1..];
      if s[0] != x {
        var r := Without(s[1..], x);
        forall i, j | 0 <= i < j < |[s[0]] + r| ensures ([s[0]] + r)[i] != ([s[0]] + r)[j] {
          assert r[j - 1] in r;
        }
      }
    }
  }

  /** How many names are not among those to be kept. */
  function Count(s: seq<string>, keep: set<string>): (r: nat)
    ensures r <= |s|
  {
    if s == [] then 0 else (if s[0] in keep then 0 else 1) + Count(s[1..], keep)
  }

  lemma {:induction false} CountAppend(s: seq<string>, x: string, keep: set<string>)
    ensures Count(s + [x], keep) == Count(s, keep) + if x in keep then 0 else 1
  {
    if s == [] {
      assert [] + [x] == [x];
    } else {
      assert (s + [x])[1..] == s[1..] + [x];
      CountAppend(s[1..], x, keep);
    }
  }

  lemma {:induction false} CountWithout(s: seq<string>, x: string, keep: set<string>)
    requires Distinct(s) && x !in keep
    ensures Count(s, keep) == Count(Without(s, x), keep + {x}) + if x in s then 1 else 0
    decreases |s|
  {
    if s != [] {
      assert Distinct(s[1..]) && s[0] !in s[1..];
      if s[0] == x {
        CountMore(s[1..], x, keep);
      } else {
        CountWithout(s[1..], x, keep);
        assert ([s[0]] + Without(s[1..], x))[1..] == Without(s[1..], x);
      }
    }
  }

  lemma {:induction false} CountMore(s: seq<string>, x: string, keep: set<string>)
    requires x !in s
    ensures Count(s, keep + {x}) == Count(s, keep)
    decreases |s|
  {
    if s != [] {
      CountMore(s[1..], x, keep);
    }
  }

  lemma {:induction false} CountAtMost(s: seq<string>, keep: set<string>, names: seq<string>)
    requires Distinct(s) && Distinct(names) && forall x :: x in s && x !in keep ==> x in names
    ensures Count(s, keep) <= |names|
    decreases |s|
  {
    if s != [] {
      assert Distinct(s[1..]) && s[0] !in s[1..];
      if s[0] in keep {
        CountAtMost(s[1..], keep, names);
      } else {
        WithoutNames(names, s[0]);
        WithoutShorter(names, s[0]);
        CountAtMost(s[1..], keep, Without(names, s[0]));
      }
    }
  }

  lemma {:induction false} WithoutShorter(s: seq<string>, x: string)
    requires x in s
    ensures |Without(s, x)| == |s| - 1
    decreases |s|
  {
    if s[0] != x {
      WithoutShorter(s[1..], x);
    }
  }

  // ---------- the names at the end ----------

  lemma NextDistinct(ops: seq<Op>)
    requires Distinct(Names(ops)) && ops != []
    ensures Distinct(Names(ops[1..])) && forall op :: op in ops[1..] ==> op.name != ops[0].name
  {
    forall i, j | 0 <= i < j < |ops| - 1 ensures Names(ops[1..])[i] != Names(ops[1..])[j] {
      assert Names(ops)[i + 1] != Names(ops)[j + 1];
    }
    forall op | op in ops[1..] ensures op.name != ops[0].name {
      var i :| 0 <= i < |ops| - 1 && ops[1..][i] == op;
      assert Names(ops)[i + 1] != Names(ops)[0];
    }
  }

  /** What is in the row at the end was there, or was put there. */
  lemma {:induction false} RunNames(s: seq<string>, ops: seq<Op>, r: seq<string>, n: string)
    requires Run(s, ops) == Some(r) && n in r && Distinct(s)
    ensures n in s || Append(n) in ops || Swap(n) in ops
    decreases |ops|
  {
    if ops != [] {
      var s' := Done(s, ops[0]).value;
      DoneDistinct(s, ops[0]);
      RunNames(s', ops[1..], r, n);
    }
  }

  lemma DoneDistinct(s: seq<string>, op: Op)
    requires Distinct(s) && Done(s, op).Some?
    ensures Distinct(Done(s, op).value)
    ensures forall n :: n in Done(s, op).value ==> n in s || (n == op.name && !op.Pop?)
  {
    var n := op.name;
    if op.Append? {
      WithoutNames(s, n);
      AppendDistinct(Without(s, n), n);
    } else if op.Swap? {
      WithoutNames(s[1..], n);
      AppendDistinct(Without(s[1..], n), n);
    }
  }

  lemma AppendDistinct(s: seq<string>, n: string)
    requires Distinct(s) && n !in s
    ensures Distinct(s + [n])
  {
  }

  // ---------- only if ----------

  function Swapped(ops: seq<Op>): set<string> {
    set op | op in ops && op.Swap? :: op.name
  }

  /** Every operation puts or takes what it should for a row that ends with the names in `goal`. */
  predicate Aims(s: seq<string>, ops: seq<Op>, goal: set<string>) {
    && Distinct(s) && Distinct(Names(ops))
    && (forall op :: op in ops ==> (op.name in goal <==> !op.Pop?))
    && (forall op :: op in ops && op.Append? ==> op.name !in s)
  }

  /** The first names of the row are not to be kept, and none comes again before its old one is gone. */
  predicate Front(s: seq<string>, takers: seq<Op>, keep: set<string>) {
    && |takers| <= |s|
    && (forall i :: 0 <= i < |takers| ==> s[i] !in keep)
    && (forall i :: 0 <= i < |takers| && takers[i].Swap? ==> takers[i].name !in s[i + 1..])
  }

  lemma AimsOn(s: seq<string>, ops: seq<Op>, goal: set<string>, s': seq<string>)
    requires Aims(s, ops, goal) && ops != [] && Done(s, ops[0]) == Some(s')
    ensures Aims(s', ops[1..], goal)
    ensures Swapped(ops) == Swapped(ops[1..]) + if ops[0].Swap? then {ops[0].name} else {}
    ensures ops[0].name !in Swapped(ops[1..])
  {
    NextDistinct(ops);
    DoneDistinct(s, ops[0]);
    assert ops == [ops[0]] + ops[1..];
  }

  /** At the end every name of `goal` is there; so the name that is taken first is not one to be kept. */
  lemma FirstGoes(s: seq<string>, ops: seq<Op>, goal: set<string>, s': seq<string>, r: seq<string>)
    requires Aims(s, ops, goal) && ops != [] && !ops[0].Append? && Done(s, ops[0]) == Some(s')
    requires Run(s', ops[1..]) == Some(r) && forall n :: n in goal ==> n in r
    ensures s != [] && s[0] !in goal - Swapped(ops)
  {
    AimsOn(s, ops, goal, s');
    var h := s[0];
    assert Distinct(s[1..]) && h !in s[1..];
    WithoutNames(s[1..], ops[0].name);
    assert forall o :: o in ops[1..] ==> o in ops;
    if h in goal - Swapped(ops) {
      RunNames(s', ops[1..], r, h);
    }
  }

  /** Of the names that are not to be kept there are at least as many as are taken; if there are no more, they stand in
      front. */
  lemma {:induction false} TakenFromFront(s: seq<string>, ops: seq<Op>, goal: set<string>, r: seq<string>)
    requires Aims(s, ops, goal) && Run(s, ops) == Some(r) && forall n :: n in goal ==> n in r
    ensures Count(s, goal - Swapped(ops)) >= |Takers(ops)|
    ensures Count(s, goal - Swapped(ops)) == |Takers(ops)| ==> Front(s, Takers(ops), goal - Swapped(ops))
    decreases |ops|
  {
    if ops != [] {
      var op, rest, s' := ops[0], ops[1..], Done(s, ops[0]).value;
      AimsOn(s, ops, goal, s');
      TakenFromFront(s', rest, goal, r);
      if !op.Append? {
        FirstGoes(s, ops, goal, s', r);
      }
      assert op in ops;
      var keep, keep' := goal - Swapped(ops), goal - Swapped(rest);
      assert keep' == if op.Swap? then keep + {op.name} else keep;
      TakeStep(s, op, s', keep, keep', Takers(rest));
    }
  }

  lemma TakeStep(s: seq<string>, op: Op, s': seq<string>, keep: set<string>, keep': set<string>, rest: seq<Op>)
    requires Distinct(s) && Done(s, op) == Some(s') && keep' == if op.Swap? then keep + {op.name} else keep
    requires if op.Append? then op.name !in s && op.name in keep else s != [] && s[0] !in keep && (op.Swap? ==> op.name !in keep)
    requires Count(s', keep') >= |rest| && (Count(s', keep') == |rest| ==> Front(s', rest, keep'))
    ensures var takers := if op.Append? then rest else [op] + rest;
      Count(s, keep) >= |takers| && (Count(s, keep) == |takers| ==> Front(s, takers, keep))
  {
    match op
    case Append(n) => FrontAppend(s, n, rest, keep);
    case Pop(_) => FrontPop(s, op, rest, keep);
    case Swap(n) => FrontSwap(s, n, rest, keep);
  }

  lemma FrontAppend(s: seq<string>, n: string, takers: seq<Op>, keep: set<string>)
    requires n !in s && n in keep
    ensures Count(Without(s, n) + [n], keep) == Count(s, keep)
    ensures Front(Without(s, n) + [n], takers, keep) ==> Front(s, takers, keep)
  {
    CountAppend(s, n, keep);
    var s' := s + [n];
    assert s'[|s|] in keep;
    if Front(s', takers, keep) {
      forall i | 0 <= i < |takers| ensures s[i] !in keep && (takers[i].Swap? ==> takers[i].name !in s[i + 1..]) {
        assert s'[i] == s[i] && s'[i + 1..] == s[i + 1..] + [n];
      }
    }
  }

  lemma FrontPop(s: seq<string>, op: Op, takers: seq<Op>, keep: set<string>)
    requires s != [] && s[0] !in keep
    ensures Count(s, keep) == 1 + Count(s[1..], keep)
    ensures Front(s[1..], takers, keep) && (op.Swap? ==> op.name !in s[1..]) ==> Front(s, [op] + takers, keep)
  {
    if Front(s[1..], takers, keep) && (op.Swap? ==> op.name !in s[1..]) {
      var all := [op] + takers;
      forall i | 0 <= i < |all| ensures s[i] !in keep && (all[i].Swap? ==> all[i].name !in s[i + 1..]) {
        if i > 0 {
          assert s[1..][i - 1] == s[i] && s[1..][i..] == s[i + 1..] && all[i] == takers[i - 1];
        }
      }
    }
  }

  lemma FrontSwap(s: seq<string>, n: string, takers: seq<Op>, keep: set<string>)
    requires Distinct(s) && s != [] && s[0] !in keep && n !in keep
    ensures var s' := Without(s[1..], n) + [n];
      && Count(s, keep) == 1 + Count(s', keep + {n}) + (if n in s[1..] then 1 else 0)
      && (n !in s[1..] && Front(s', takers, keep + {n}) ==> Front(s, [Swap(n)] + takers, keep))
  {
    assert Distinct(s[1..]);
    CountWithout(s[1..], n, keep);
    CountAppend(Without(s[1..], n), n, keep + {n});
    FrontPop(s, Swap(n), takers, keep);
    if n !in s[1..] && Front(Without(s[1..], n) + [n], takers, keep + {n}) {
      FrontAppend(s[1..], n, takers, keep + {n});
      assert Front(s[1..], takers, keep);
    }
  }

  /** A row that ends with the right names had the names to be taken in front. */
  lemma RightOnlyIf(s: seq<string>, ops: seq<Op>, r: seq<string>)
    requires Sound(s, ops) && Run(s, ops) == Some(r) && forall n :: n in r <==> Wanted(n, s, ops)
    ensures Standing(s, Takers(ops))
  {
    var goal := set n | n in r;
    var keep, takers := goal - Swapped(ops), Takers(ops);
    forall op | op in ops ensures op.name in goal <==> !op.Pop? {
      OneOf(ops, op);
    }
    TakenFromFront(s, ops, goal, r);
    forall n | n in s ensures n !in keep ==> n in Names(takers) {
      if n !in keep {
        GoneIsTaken(s, ops, n);
      }
    }
    TakersDistinct(ops);
    CountAtMost(s, keep, Names(takers));
    forall i | 0 <= i < |takers| && takers[i].Swap? ensures takers[i].name in s[..i + 1] {
      assert takers[i] in ops;
      assert s == s[..i + 1] + s[i + 1..];
    }
  }

  lemma OneOf(ops: seq<Op>, op: Op)
    requires Distinct(Names(ops)) && op in ops
    ensures forall o :: o in ops && o.name == op.name ==> o == op
  {
    forall o | o in ops && o.name == op.name ensures o == op {
      var i :| 0 <= i < |ops| && ops[i] == op;
      var j :| 0 <= j < |ops| && ops[j] == o;
      assert Names(ops)[i] == Names(ops)[j];
    }
  }

  lemma GoneIsTaken(s: seq<string>, ops: seq<Op>, n: string)
    requires n in s && (Wanted(n, s, ops) ==> n in Swapped(ops))
    ensures n in Names(Takers(ops))
  {
    var op := if Pop(n) in ops then Pop(n) else Swap(n);
    assert op in Takers(ops);
    var i :| 0 <= i < |Takers(ops)| && Takers(ops)[i] == op;
    assert Names(Takers(ops))[i] == n;
  }

  lemma {:induction false} TakersDistinct(ops: seq<Op>)
    requires Distinct(Names(ops))
    ensures Distinct(Names(Takers(ops)))
    decreases |ops|
  {
    if ops != [] {
      NextDistinct(ops);
      TakersDistinct(ops[1..]);
      var rest := Takers(ops[1..]);
      if !ops[0].Append? {
        forall i, j | 0 <= i < j < 1 + |rest| ensures Names([ops[0]] + rest)[i] != Names([ops[0]] + rest)[j] {
          assert rest[j - 1] in ops[1..];
          if i > 0 {
            assert Names(rest)[i - 1] != Names(rest)[j - 1];
          }
        }
      }
    }
  }

  // ---------- if ----------

  /** The names in `gone`, as many as will be taken, stand in front. */
  predicate Leading(s: seq<string>, ops: seq<Op>, gone: set<string>) {
    && Distinct(s) && Distinct(Names(ops)) && |Takers(ops)| <= |s|
    && (forall i :: 0 <= i < |s| ==> (s[i] in gone <==> i < |Takers(ops)|))
    && (forall i :: 0 <= i < |Takers(ops)| && Takers(ops)[i].Swap? ==> Takers(ops)[i].name !in s[i + 1..])
    && (forall op :: op in ops && op.Append? ==> op.name !in s && op.name !in gone)
  }

  predicate Left(n: string, s: seq<string>, ops: seq<Op>, gone: set<string>) {
    (n in s && n !in gone) || Append(n) in ops || Swap(n) in ops
  }

  lemma {:induction false} LeadingRuns(s: seq<string>, ops: seq<Op>, gone: set<string>) returns (r: seq<string>)
    requires Leading(s, ops, gone)
    ensures Run(s, ops) == Some(r) && forall n :: n in r <==> Left(n, s, ops, gone)
    decreases |ops|
  {
    if ops == [] {
      r := s;
    } else {
      var op, rest := ops[0], ops[1..];
      NextDistinct(ops);
      assert ops == [op] + rest;
      match op
      case Append(n) =>
        LeadingAppend(s, ops, gone);
        r := LeadingRuns(s + [n], rest, gone);
      case Pop(n) =>
        LeadingPop(s, ops, gone);
        r := LeadingRuns(s[1..], rest, gone);
      case Swap(n) =>
        LeadingSwap(s, ops, gone);
        r := LeadingRuns(s[1..] + [n], rest, gone - {n});
    }
  }

  lemma LeadingAppend(s: seq<string>, ops: seq<Op>, gone: set<string>)
    requires Leading(s, ops, gone) && ops != [] && ops[0].Append?
    ensures Done(s, ops[0]) == Some(s + [ops[0].name]) && Leading(s + [ops[0].name], ops[1..], gone)
  {
    var n, s', t := ops[0].name, s + [ops[0].name], Takers(ops);
    NextDistinct(ops);
    AppendDistinct(s, n);
    assert ops[0] in ops && t == Takers(ops[1..]);
    forall i | 0 <= i < |s'| ensures s'[i] in gone <==> i < |t| {
      if i < |s| {
        assert s'[i] == s[i];
      }
    }
    forall i | 0 <= i < |t| && t[i].Swap? ensures t[i].name !in s'[i + 1..] {
      assert t[i] in ops[1..] && s'[i + 1..] == s[i + 1..] + [n];
    }
  }

  lemma LeadingPop(s: seq<string>, ops: seq<Op>, gone: set<string>)
    requires Leading(s, ops, gone) && ops != [] && ops[0].Pop?
    ensures Done(s, ops[0]) == Some(s[1..]) && Leading(s[1..], ops[1..], gone) && s[0] in gone
  {
    var s', t, t' := s[1..], Takers(ops), Takers(ops[1..]);
    NextDistinct(ops);
    assert t == [ops[0]] + t';
    forall i | 0 <= i < |t'| && t'[i].Swap? ensures t'[i].name !in s'[i + 1..] {
      assert t[i + 1] == t'[i] && s'[i + 1..] == s[i + 2..];
    }
  }

  lemma LeadingSwap(s: seq<string>, ops: seq<Op>, gone: set<string>)
    requires Leading(s, ops, gone) && ops != [] && ops[0].Swap?
    ensures var n := ops[0].name;
      && Done(s, ops[0]) == Some(s[1..] + [n]) && Leading(s[1..] + [n], ops[1..], gone - {n})
      && s[0] in gone && n !in s[1..]
  {
    var n, t, t' := ops[0].name, Takers(ops), Takers(ops[1..]);
    var s' := s[1..] + [n];
    NextDistinct(ops);
    assert t == [ops[0]] + t';
    assert n !in s[0 + 1..];
    assert Distinct(s[1..]);
    AppendDistinct(s[1..], n);
    forall i | 0 <= i < |s'| ensures s'[i] in gone - {n} <==> i < |t'| {
      if i < |s| - 1 {
        assert s'[i] == s[i + 1] && s[i + 1] in s[1..];
      }
    }
    forall i | 0 <= i < |t'| && t'[i].Swap? ensures t'[i].name !in s'[i + 1..] {
      assert t[i + 1] == t'[i] && t'[i] in ops[1..] && s'[i + 1..] == s[i + 2..] + [n];
    }
  }

  /** With the names to be taken in front, the row ends with the right names. */
  lemma RightIf(s: seq<string>, ops: seq<Op>) returns (r: seq<string>)
    requires Sound(s, ops) && Standing(s, Takers(ops))
    ensures Run(s, ops) == Some(r) && forall n :: n in r <==> Wanted(n, s, ops)
  {
    var takers := Takers(ops);
    var gone := set n | n in Names(takers);
    TakersDistinct(ops);
    FrontIsAll(s, Names(takers));
    forall i | 0 <= i < |takers| && takers[i].Swap? ensures takers[i].name !in s[i + 1..] {
      NotTwice(s, i + 1, takers[i].name);
    }
    forall op | op in ops && op.Append? ensures op.name !in gone {
      if op.name in gone {
        NameOfTaker(ops, op.name);
      }
    }
    r := LeadingRuns(s, ops, gone);
    forall n ensures Left(n, s, ops, gone) <==> Wanted(n, s, ops) {
      LeftIsWanted(n, s, ops, gone);
    }
  }

  lemma NotTwice(s: seq<string>, i: nat, x: string)
    requires Distinct(s) && i <= |s| && x in s[..i]
    ensures x !in s[i..]
  {
    var k :| 0 <= k < i && s[k] == x;
  }

  lemma NameOfTaker(ops: seq<Op>, n: string)
    requires n in Names(Takers(ops))
    ensures Pop(n) in ops || Swap(n) in ops
  {
    var i :| 0 <= i < |Takers(ops)| && Names(Takers(ops))[i] == n;
    assert Takers(ops)[i] in Takers(ops);
  }

  lemma LeftIsWanted(n: string, s: seq<string>, ops: seq<Op>, gone: set<string>)
    requires Sound(s, ops) && gone == set x | x in Names(Takers(ops))
    ensures Left(n, s, ops, gone) <==> Wanted(n, s, ops)
  {
    if n in gone {
      NameOfTaker(ops, n);
    }
    if Pop(n) in ops || Swap(n) in ops {
      var op := if Pop(n) in ops then Pop(n) else Swap(n);
      OneOf(ops, op);
      assert op in Takers(ops);
      var i :| 0 <= i < |Takers(ops)| && Takers(ops)[i] == op;
      assert Names(Takers(ops))[i] == n;
    }
  }

  /** As many different names as there are in front, all among them: they are all of them, and none stands behind. */
  lemma FrontIsAll(s: seq<string>, names: seq<string>)
    requires Distinct(s) && Distinct(names) && |names| <= |s| && forall i :: 0 <= i < |names| ==> s[i] in names
    ensures forall i :: 0 <= i < |s| ==> (s[i] in names <==> i < |names|)
  {
    forall i | |names| <= i < |s| ensures s[i] !in names {
      if s[i] in names {
        var front := s[..|names|] + [s[i]];
        forall a, b | 0 <= a < b < |front| ensures front[a] != front[b] {
          assert front[a] == s[a];
        }
        CountAtMost(front, {}, names);
        CountNone(front);
      }
    }
  }

  lemma {:induction false} CountNone(s: seq<string>)
    ensures Count(s, {}) == |s|
    decreases |s|
  {
    if s != [] {
      CountNone(s[1..]);
    }
  }

  /** The names in the row are the right ones at the end exactly when those to be taken stand in front. */
  lemma RightIffStanding(s: seq<string>, ops: seq<Op>)
    requires Sound(s, ops)
    ensures (Run(s, ops).Some? && forall n :: n in Run(s, ops).value <==> Wanted(n, s, ops)) <==> Standing(s, Takers(ops))
  {
    if Standing(s, Takers(ops)) {
      var r := RightIf(s, ops);
    }
    if Run(s, ops).Some? && forall n :: n in Run(s, ops).value <==> Wanted(n, s, ops) {
      RightOnlyIf(s, ops, Run(s, ops).value);
    }
  }
}
