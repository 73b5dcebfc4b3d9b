/**
 What JSON pointers promise: a pointer found for a node leads back to it, resolving a pointer refines the evaluation of
 section 4 of RFC 6901 on meanings, and exactly which names survive being decoded in place.
 */
module JsonPointerLaws {
  import opened CStrings
  import opened JsonTrees
  import opened JsonPointer

  // ---------- from a node to its pointer and back ----------

  /** The pointer that leads from `j` to its node at `pos`. */
  function PointerTo(j: Json, pos: Position): (pointer: string)
    requires IsNode(j, pos)
    ensures pointer == "" || pointer[0] == '/'
    decreases |pos|
  {
    if pos == [] then ""
    else "/" + (TokenOf(j, pos[0]) + PointerTo(Children(j)[pos[0]], pos[1..]))
  }

  function TokenOf(j: Json, i: nat): (token: string)
    requires i < |Children(j)|
    ensures '/' !in token
  {
    if j.Array? then Decimal(i) else Encode(j.members[i].key)
  }

  predicate Extends(target: Position, here: Position) {
    |here| <= |target| && target[..|here|] == here
  }

  /** cJSONUtils_FindPointerFromObjectTo: depth-first search for the node `target`, the pointer is put together on
      the way back. */
  method FindPointerFromObjectTo(here: Position, j: Json, target: Position) returns (pointer: Option<string>)
    ensures pointer == if Extends(target, here) && IsNode(j, target[|here|..])
                       then Some(PointerTo(j, target[|here|..])) else None
    decreases j
  {
    if here == target {
      return Some("");
    }
    var children := Children(j);
    var i := 0;
    while i < |children|
      invariant i <= |children|
      invariant forall k :: 0 <= k < i && Extends(target, here + [k]) ==> !IsNode(children[k], target[|here| + 1..])
    {
      ChildSmaller(j, i);
      var targetPointer := FindPointerFromObjectTo(here + [i], children[i], target);
      if targetPointer.Some? {
        ExtendsChild(target, here, i);
        TailOfTail(target, |here|);
        match j {
          case Array(items) =>
            return Some("/" + (Decimal(i) + targetPointer.value));
          case Object(members) =>
            var token := EncodeStringAsPointer(members[i].key);
            return Some("/" + (token + targetPointer.value));
        }
      }
      i := i + 1;
    }
    if Extends(target, here) && IsNode(j, target[|here|..]) {
      BelowChild(here, j, target);
      assert false;
    }
    return None;
  }

  lemma ChildSmaller(j: Json, i: nat)
    requires i < |Children(j)|
    ensures j decreases to Children(j)[i]
  {
    match j
    case Array(items) =>
    case Object(members) =>
      assert members decreases to members[i];
    case _ =>
  }

  lemma ExtendsChild(target: Position, here: Position, i: nat)
    ensures Extends(target, here + [i]) <==> Extends(target, here) && |target| > |here| && target[|here|] == i
  {
    if |target| > |here| {
      assert target[..|here| + 1] == target[..|here|] + [target[|here|]];
    }
  }

  lemma BelowChild(here: Position, j: Json, target: Position)
    requires Extends(target, here) && here != target && IsNode(j, target[|here|..])
    ensures |here| < |target| && target[|here|] < |Children(j)|
    ensures Extends(target, here + [target[|here|]])
    ensures IsNode(Children(j)[target[|here|]], target[|here| + 1..])
  {
    ExtendsChild(target, here, target[|here|]);
    TailOfTail(target, |here|);
  }

  lemma TailOfTail(pos: Position, n: nat)
    requires n < |pos|
    ensures pos[n..][1..] == pos[n + 1..]
  {
  }

  /** Resolving the token of a child selects that child, when siblings have distinct names. */
  lemma StepOfToken(j: Json, i: nat, rest: string, caseSensitive: bool)
    requires DistinctSiblings(j, caseSensitive) && Fits(j)
    requires i < |Children(j)| && (rest == "" || rest[0] == '/')
    ensures Step(j, TokenOf(j, i) + rest, caseSensitive) == Some(i)
    ensures SkipSegment(TokenOf(j, i) + rest) == rest
  {
    SegmentOf(TokenOf(j, i), rest);
    match j
    case Array(items) =>
      DecimalSane(i);
    case Object(members) =>
      forall k | 0 <= k < i
        ensures Norm(caseSensitive, Encode(members[k].key)) != Norm(caseSensitive, Encode(members[i].key))
      {
        EncodeNormInjective(members[k].key, members[i].key, caseSensitive);
      }
      MatchIndexIs(members, TokenOf(j, i) + rest, caseSensitive, i);
    case _ =>
  }

  lemma {:induction false} EncodeNormInjective(a: string, b: string, caseSensitive: bool)
    ensures Norm(caseSensitive, Encode(a)) == Norm(caseSensitive, Encode(b)) <==>
            Norm(caseSensitive, a) == Norm(caseSensitive, b)
  {
    SegmentOf(Encode(b), "");
    assert Encode(b) + "" == Encode(b);
    SegmentMatchesIffEncodes(a, Encode(b), caseSensitive);
    MatchOfEncode(a, b, caseSensitive);
  }

  lemma {:induction false} MatchOfEncode(a: string, b: string, caseSensitive: bool)
    ensures SegmentMatches(a, Encode(b), caseSensitive) <==> Norm(caseSensitive, a) == Norm(caseSensitive, b)
    decreases |a|
  {
    if a != "" && b != "" {
      assert Encode(b) == EncodeChar(b[0]) + Encode(b[1..]);
      MatchOfEncode(a[1..], b[1..], caseSensitive);
      NormAt(caseSensitive, a, 0);
      NormAt(caseSensitive, b, 0);
      NormAt(caseSensitive, a, 1);
      NormAt(caseSensitive, b, 1);
      SplitOne(Norm(caseSensitive, a), Norm(caseSensitive, b));
      if b[0] == '~' || b[0] == '/' {
        assert Encode(b)[2..] == Encode(b[1..]);
      } else {
        assert Encode(b)[1..] == Encode(b[1..]);
      }
    }
  }

  /** GetPointer(FindPointerFromObjectTo(node)) is the node, whatever characters the names hold. */
  lemma {:induction false} GetPointerUndoesFindPointer(j: Json, pos: Position, caseSensitive: bool)
    requires DistinctSiblings(j, caseSensitive) && Fits(j) && IsNode(j, pos)
    ensures Locate(j, PointerTo(j, pos), caseSensitive) == Some(pos)
    decreases |pos|
  {
    if pos != [] {
      var child := Children(j)[pos[0]];
      var rest := PointerTo(child, pos[1..]);
      assert Locate(child, rest, caseSensitive) == Some(pos[1..]) by {
        DistinctChild(j, pos[0], caseSensitive);
        GetPointerUndoesFindPointer(child, pos[1..], caseSensitive);
      }
      StepOfToken(j, pos[0], rest, caseSensitive);
      LocateUnfold(j, TokenOf(j, pos[0]) + rest, pos[0], rest, caseSensitive);
      assert [pos[0]] + pos[1..] == pos;
    }
  }

  lemma LocateUnfold(j: Json, token: string, i: nat, rest: string, caseSensitive: bool)
    requires Step(j, token, caseSensitive) == Some(i) && SkipSegment(token) == rest
    ensures Locate(j, "/" + token, caseSensitive) == Under(i, Locate(Children(j)[i], rest, caseSensitive))
  {
    assert ("/" + token)[1..] == token;
  }

  lemma DistinctChild(j: Json, i: nat, caseSensitive: bool)
    requires i < |Children(j)|
    ensures DistinctSiblings(j, caseSensitive) ==> DistinctSiblings(Children(j)[i], caseSensitive)
    ensures Fits(j) ==> Fits(Children(j)[i])
  {
    match j
    case Array(items) =>
    case Object(members) =>
      assert members[i] in members;
      assert DistinctSiblings(j, caseSensitive) == DistinctMembers(members, caseSensitive);
    case _ =>
  }

  // ---------- resolving is evaluating ----------

  /** Section 4 of RFC 6901 on meanings, for reference tokens that are already unescaped. Names are read the way the
      comparison in use reads them. */
  function DocGet(d: Doc, tokens: seq<string>, caseSensitive: bool): Option<Doc> {
    if tokens == [] then Some(d)
    else
      var child := DocChild(d, tokens[0], caseSensitive);
      if child == None then None else DocGet(child.value, tokens[1..], caseSensitive)
  }

  function DocChild(d: Doc, token: string, caseSensitive: bool): Option<Doc> {
    match d
    case Obj(fields) =>
      var k := Norm(caseSensitive, token);
      if k in fields then Some(fields[k]) else None
    case Arr(elements) =>
      var index := Rfc6901Index(token);
      if index.Some? && 0 <= index.value < |elements| then Some(elements[index.value]) else None
    case Atom(_) => None
  }

  /** The pointer text for a list of reference tokens. */
  function Render(tokens: seq<string>): (pointer: string)
    ensures pointer == "" || pointer[0] == '/'
  {
    if tokens == [] then "" else "/" + (Encode(tokens[0]) + Render(tokens[1..]))
  }

  lemma {:induction false} RenderAppend(a: seq<string>, b: seq<string>)
    ensures Render(a + b) == Render(a) + Render(b)
  {
    if a == [] {
      assert a + b == b;
    } else {
      assert (a + b)[1..] == a[1..] + b;
      RenderAppend(a[1..], b);
    }
  }

  /** Tokens that meet an array on their way down are written in a way the code and the RFC read alike. */
  predicate SanePath(d: Doc, tokens: seq<string>, caseSensitive: bool)
    decreases |tokens|
  {
    tokens != [] ==>
      && (d.Arr? ==> IndexSane(Encode(tokens[0])))
      && (var child := DocChild(d, tokens[0], caseSensitive);
          child.Some? ==> SanePath(child.value, tokens[1..], caseSensitive))
  }

  /** One token: the code selects the child the RFC selects. */
  lemma StepIsDocChild(j: Json, token: string, rest: string, caseSensitive: bool)
    requires j.Array? ==> IndexSane(Encode(token))
    requires rest == "" || rest[0] == '/'
    ensures var step := Step(j, Encode(token) + rest, caseSensitive);
      DocChild(Meaning(j, caseSensitive), token, caseSensitive) ==
        if step.Some? then Some(Meaning(Children(j)[step.value], caseSensitive)) else None
    ensures SkipSegment(Encode(token) + rest) == rest
  {
    var pointer := Encode(token) + rest;
    SegmentOf(Encode(token), rest);
    match j
    case Array(items) =>
      WrittenIndex(token);
      IndexTokenIsRfc(Encode(token));
    case Object(members) =>
      MatchIsKeyIndex(members, token, pointer, caseSensitive);
      FieldsLookup(members, token, caseSensitive);
    case _ =>
  }

  /** A token is a number for the RFC exactly when it is one as written. */
  lemma WrittenIndex(token: string)
    ensures Rfc6901Index(Encode(token)) == Rfc6901Index(token)
  {
    if '~' !in token && '/' !in token {
      EncodePlain(token);
    } else {
      EncodeKeepsTilde(token);
      assert !IsDigit('~') && !IsDigit('/');
    }
  }

  lemma {:induction false} EncodeKeepsTilde(token: string)
    ensures '~' in token || '/' in token ==> '~' in Encode(token)
  {
    if token != "" {
      EncodeKeepsTilde(token[1..]);
    }
  }

  lemma {:induction false} MatchIsKeyIndex(members: seq<Member<Json>>, token: string, pointer: string, caseSensitive: bool)
    requires Segment(pointer) == Encode(token)
    ensures MatchIndex(members, pointer, caseSensitive) == KeyIndex(members, token, caseSensitive)
  {
    if members != [] {
      EncodeNormInjective(token, members[0].key, caseSensitive);
      MatchIsKeyIndex(members[1..], token, pointer, caseSensitive);
    }
  }

  /** Resolving a rendered pointer refines RFC 6901 evaluation on the meaning of the tree. */
  lemma {:induction false} LocateIsDocGet(j: Json, tokens: seq<string>, caseSensitive: bool)
    requires SanePath(Meaning(j, caseSensitive), tokens, caseSensitive)
    ensures var pos := Locate(j, Render(tokens), caseSensitive);
      DocGet(Meaning(j, caseSensitive), tokens, caseSensitive) ==
        if pos.Some? then Some(Meaning(NodeAt(j, pos.value), caseSensitive)) else None
    decreases |tokens|
  {
    if tokens != [] {
      var rest := Render(tokens[1..]);
      var token := Encode(tokens[0]) + rest;
      StepIsDocChild(j, tokens[0], rest, caseSensitive);
      var step := Step(j, token, caseSensitive);
      assert ("/" + token)[1..] == token;
      if step.Some? {
        var child := Children(j)[step.value];
        LocateIsDocGet(child, tokens[1..], caseSensitive);
        LocateUnfold(j, token, step.value, rest, caseSensitive);
        var r := Locate(child, rest, caseSensitive);
        if r.Some? {
          assert ([step.value] + r.value)[1..] == r.value;
        }
      }
    }
  }
}
