/**
 JSON Pointer as cJSON_Utils implements it, against sections 3 and 4 of RFC 6901.
 A node of a tree is named by its position (the child index at every level), as the C code names it by its address.
 */
module JsonPointer {
  import opened CStrings
  import opened JsonTrees

  // ---------- reference tokens ----------

  function EncodeChar(c: char): string {
    if c == '/' then "~1" else if c == '~' then "~0" else [c]
  }

  /** A name written as a reference token: '~' becomes "~0" and '/' becomes "~1". */
  function Encode(name: string): (token: string)
    ensures '/' !in token
    ensures |token| >= |name|
  {
    if name == "" then "" else EncodeChar(name[0]) + Encode(name[1..])
  }

  lemma {:induction false} EncodeAppend(a: string, b: string)
    ensures Encode(a + b) == Encode(a) + Encode(b)
  {
    if a == "" {
      assert a + b == b;
    } else {
      assert (a + b)[1..] == a[1..] + b;
      EncodeAppend(a[1..], b);
    }
  }

  lemma {:induction false} EncodePlain(name: string)
    requires '~' !in name && '/' !in name
    ensures Encode(name) == name
  {
    if name != "" {
      EncodePlain(name[1..]);
    }
  }

  /** encode_string_as_pointer. */
  method EncodeStringAsPointer(source: string) returns (destination: string)
    ensures destination == Encode(source)
  {
    destination := "";
    var i := 0;
    while i < |source|
      invariant i <= |source|
      invariant destination == Encode(source[..i])
    {
      EncodeAppend(source[..i], [source[i]]);
      assert source[..i + 1] == source[..i] + [source[i]];
      assert Encode([source[i]]) == EncodeChar(source[i]);
      if source[i] == '/' {
        destination := destination + ['~', '1'];
      } else if source[i] == '~' {
        destination := destination + ['~', '0'];
      } else {
        destination := destination + [source[i]];
      }
      i := i + 1;
    }
    assert source[..i] == source;
  }

  /** pointer_encoded_length: what the caller reserves is exactly what the encoder writes. */
  method PointerEncodedLength(s: string) returns (length: nat)
    ensures length == |Encode(s)|
  {
    length := 0;
    var i := 0;
    while i < |s|
      invariant i <= |s|
      invariant length == |Encode(s[..i])|
    {
      EncodeAppend(s[..i], [s[i]]);
      assert s[..i + 1] == s[..i] + [s[i]];
      assert Encode([s[i]]) == EncodeChar(s[i]);
      if s[i] == '~' || s[i] == '/' {
        length := length + 1;
      }
      i := i + 1;
      length := length + 1;
    }
    assert s[..i] == s;
  }

  /** The reference token a pointer starts with, and what is left after it. */
  function Segment(pointer: string): (r: string)
    ensures |r| <= |pointer| && r == pointer[..|r|] && '/' !in r
    ensures |r| < |pointer| ==> pointer[|r|] == '/'
  {
    if pointer == "" || pointer[0] == '/' then "" else [pointer[0]] + Segment(pointer[1..])
  }

  function SkipSegment(pointer: string): string {
    pointer[|Segment(pointer)|..]
  }

  lemma {:induction false} SegmentOf(token: string, rest: string)
    requires '/' !in token && (rest == "" || rest[0] == '/')
    ensures Segment(token + rest) == token && SkipSegment(token + rest) == rest
  {
    if token == "" {
      assert token + rest == rest;
    } else {
      assert (token + rest)[1..] == token[1..] + rest;
      SegmentOf(token[1..], rest);
    }
  }

  /** The walk of compare_pointers over a name and a pointer. */
  predicate SegmentMatches(name: string, pointer: string, caseSensitive: bool)
    decreases |name|
  {
    if name == "" || pointer == "" || pointer[0] == '/' then
      (pointer != "" && pointer[0] != '/') == (name != "")
    else if pointer[0] == '~' then
      && |pointer| > 1
      && ((pointer[1] == '0' && name[0] == '~') || (pointer[1] == '1' && name[0] == '/'))
      && SegmentMatches(name[1..], pointer[2..], caseSensitive)
    else
      && NormChar(caseSensitive, name[0]) == NormChar(caseSensitive, pointer[0])
      && SegmentMatches(name[1..], pointer[1..], caseSensitive)
  }

  /** One turn of the walk, in terms of the indices into the two strings. */
  lemma SegmentTurn(name: string, pointer: string, n: nat, p: nat, caseSensitive: bool)
    requires n <= |name| && p <= |pointer|
    ensures n == |name| || p == |pointer| || pointer[p] == '/' ==>
              SegmentMatches(name[n..], pointer[p..], caseSensitive) ==
              ((p < |pointer| && pointer[p] != '/') == (n < |name|))
    ensures n < |name| && p < |pointer| && pointer[p] == '~' ==>
              SegmentMatches(name[n..], pointer[p..], caseSensitive) ==
              (&& p + 1 < |pointer|
               && ((pointer[p + 1] == '0' && name[n] == '~') || (pointer[p + 1] == '1' && name[n] == '/'))
               && SegmentMatches(name[n + 1..], pointer[p + 2..], caseSensitive))
    ensures n < |name| && p < |pointer| && pointer[p] != '~' && pointer[p] != '/' ==>
              SegmentMatches(name[n..], pointer[p..], caseSensitive) ==
              (&& NormChar(caseSensitive, name[n]) == NormChar(caseSensitive, pointer[p])
               && SegmentMatches(name[n + 1..], pointer[p + 1..], caseSensitive))
  {
    var x, y := name[n..], pointer[p..];
    assert n < |name| ==> x[1..] == name[n + 1..];
    assert p < |pointer| ==> y[1..] == pointer[p + 1..];
    assert p + 1 < |pointer| ==> y[2..] == pointer[p + 2..];
  }

  /** The loop of compare_pointers: the two pointers into the strings advance together until one ends. */
  method WalkPointers(name: string, pointer: string, caseSensitive: bool) returns (equal: bool)
    ensures equal <==> SegmentMatches(name, pointer, caseSensitive)
  {
    ghost var matches := SegmentMatches(name, pointer, caseSensitive);
    var n, p := 0, 0;
    assert name[0..] == name && pointer[0..] == pointer;
    while n < |name| && p < |pointer| && pointer[p] != '/'
      invariant n <= |name| && p <= |pointer|
      invariant matches == SegmentMatches(name[n..], pointer[p..], caseSensitive)
    {
      SegmentTurn(name, pointer, n, p, caseSensitive);
      if pointer[p] == '~' {
        if p + 1 == |pointer|
           || ((pointer[p + 1] != '0' || name[n] != '~') && (pointer[p + 1] != '1' || name[n] != '/')) {
          return false;
        }
        p := p + 1;
      } else if NormChar(caseSensitive, name[n]) != NormChar(caseSensitive, pointer[p]) {
        return false;
      }
      n, p := n + 1, p + 1;
    }
    SegmentTurn(name, pointer, n, p, caseSensitive);
    return (p < |pointer| && pointer[p] != '/') == (n < |name|);
  }

  /** compare_pointers: true exactly when the token in front is the encoding of the name. */
  method ComparePointers(name: string, pointer: string, caseSensitive: bool) returns (equal: bool)
    ensures equal <==> Norm(caseSensitive, Segment(pointer)) == Norm(caseSensitive, Encode(name))
  {
    SegmentMatchesIffEncodes(name, pointer, caseSensitive);
    equal := WalkPointers(name, pointer, caseSensitive);
  }

  /** compare_pointers accepts exactly the encodings of the name (up to case, when case is ignored). */
  lemma {:induction false} SegmentMatchesIffEncodes(name: string, pointer: string, caseSensitive: bool)
    ensures SegmentMatches(name, pointer, caseSensitive) <==>
            Norm(caseSensitive, Segment(pointer)) == Norm(caseSensitive, Encode(name))
    decreases |name|
  {
    var s, e := Segment(pointer), Encode(name);
    if name == "" || pointer == "" || pointer[0] == '/' {
      assert |s| == 0 <==> pointer == "" || pointer[0] == '/';
      assert |e| == 0 <==> name == "";
    } else {
      assert e == EncodeChar(name[0]) + Encode(name[1..]);
      NormAt(caseSensitive, s, 0);
      NormAt(caseSensitive, e, 0);
      NormAt(caseSensitive, s, 1);
      NormAt(caseSensitive, e, 1);
      if pointer[0] == '~' {
        if |pointer| > 1 && pointer[1] != '/' {
          NormAt(caseSensitive, s, 2);
          assert s[2..] == Segment(pointer[2..]) by {
            assert pointer[1..][1..] == pointer[2..];
          }
          if name[0] == '~' || name[0] == '/' {
            SegmentMatchesIffEncodes(name[1..], pointer[2..], caseSensitive);
            NormAt(caseSensitive, e, 2);
            assert e[2..] == Encode(name[1..]);
            SplitTwo(Norm(caseSensitive, s), Norm(caseSensitive, e));
          }
        } else {
          assert |s| == 1;
        }
      } else {
        assert s[1..] == Segment(pointer[1..]);
        SegmentMatchesIffEncodes(name[1..], pointer[1..], caseSensitive);
        SplitOne(Norm(caseSensitive, s), Norm(caseSensitive, e));
        if name[0] != '~' && name[0] != '/' {
          assert e[1..] == Encode(name[1..]);
        }
      }
    }
  }

  lemma SplitOne(a: string, b: string)
    requires |a| >= 1 && |b| >= 1
    ensures a == b <==> a[0] == b[0] && a[1..] == b[1..]
  {
    assert a == [a[0]] + a[1..] && b == [b[0]] + b[1..];
  }

  lemma SplitTwo(a: string, b: string)
    requires |a| >= 2 && |b| >= 2
    ensures a == b <==> a[0] == b[0] && a[1] == b[1] && a[2..] == b[2..]
  {
    assert a == [a[0], a[1]] + a[2..] && b == [b[0], b[1]] + b[2..];
  }

  // ---------- array indices ----------

  /** What decode_array_index_from_pointer makes of one token: it tests the first character for an upper bound
      at every step, and its `size_t` wraps around. */
  function IndexToken(token: string): (r: Option<nat>) {
    if |token| >= 2 && token[0] == '0' then None
    else if token == "" then Some(0)
    else if token[0] <= '9' && forall c :: c in token ==> c >= '0' then
      Some(DigitsValue(0, token) % SIZE_LIMIT)
    else None
  }

  /** Section 4 of RFC 6901: array-index = "0" / (%x31-39 *DIGIT). */
  function Rfc6901Index(token: string): Option<int> {
    if token == "0" || (token != "" && token[0] != '0' && forall c :: c in token ==> IsDigit(c)) then
      Some(DigitsValue(0, token))
    else None
  }

  /** Not empty, no character above '9' in a token that starts like a number, and no wrap-around. */
  predicate IndexSane(token: string) {
    && token != ""
    && (IsDigit(token[0]) && (token[0] == '0' ==> |token| == 1) && (forall c :: c in token ==> c >= '0') ==>
          (forall c :: c in token ==> c <= '9') && DigitsValue(0, token) < SIZE_LIMIT)
  }

  lemma {:induction false} DigitsValueBound(acc: int, s: string)
    requires acc >= 0 && forall c :: c in s ==> c >= '0'
    ensures DigitsValue(acc, s) >= acc
    decreases |s|
  {
    if s != "" {
      assert s[0] in s && forall c :: c in s[1..] ==> c in s;
      DigitsValueBound(10 * acc + (s[0] as int - '0' as int), s[1..]);
    }
  }

  /** The code reads a token as the RFC does exactly when the token is sane. */
  lemma IndexTokenIsRfc(token: string)
    ensures IndexSane(token) <==> (IndexToken(token) == None && Rfc6901Index(token) == None)
                                  || (IndexToken(token).Some? && Rfc6901Index(token).Some?
                                      && IndexToken(token).value == Rfc6901Index(token).value)
  {
    if forall c :: c in token ==> c >= '0' {
      DigitsValueBound(0, token);
    }
    if token != "" {
      assert token[0] in token;
      if |token| == 1 {
        assert token == [token[0]];
      }
    }
  }

  lemma DecimalSane(n: nat)
    requires n < SIZE_LIMIT
    ensures IndexSane(Decimal(n)) && IndexToken(Decimal(n)) == Some(n)
  {
    DecimalValue(n);
  }

  lemma DigitStep(a: int, d: int, m: int)
    requires m > 0
    ensures (10 * (a % m) + d) % m == (10 * a + d) % m
  {
    var q := a / m;
    assert a == q * m + a % m;
    assert 10 * a + d == 10 * (a % m) + d + (10 * q) * m;
    ModAdd(10 * (a % m) + d, 10 * q, m);
  }

  lemma ModAdd(x: int, k: int, m: int)
    requires m > 0
    ensures (x + k * m) % m == x % m
  {
    var r := x % m;
    var q := x / m;
    assert x + k * m == (q + k) * m + r;
    ModUnique(x + k * m, q + k, r, m);
  }

  lemma ModUnique(x: int, q: int, r: int, m: int)
    requires m > 0 && x == q * m + r && 0 <= r < m
    ensures x % m == r
  {
    var d := q - x / m;
    assert x == (x / m) * m + x % m;
    assert d * m == x % m - r;
    assert d >= 1 ==> d * m >= m;
    assert d <= -1 ==> d * m <= -m;
  }

  /** decode_array_index_from_pointer. */
  method DecodeArrayIndexFromPointer(pointer: string) returns (index: Option<nat>)
    ensures index == IndexToken(Segment(pointer))
  {
    ghost var token := Segment(pointer);
    if |pointer| > 1 && pointer[0] == '0' && pointer[1] != '/' {
      assert |token| >= 2;
      return None;
    }
    var parsedIndex := 0;
    var position := 0;
    while position < |pointer| && pointer[position] >= '0' && pointer[0] <= '9'
      invariant position <= |token|
      invariant position > 0 ==> pointer[0] <= '9'
      invariant forall c :: c in token[..position] ==> c >= '0'
      invariant parsedIndex == DigitsValue(0, token[..position]) % SIZE_LIMIT
    {
      ghost var digit := pointer[position] as int - '0' as int;
      assert token[..position + 1] == token[..position] + [pointer[position]];
      DigitsValueAppend(0, token[..position], pointer[position]);
      DigitStep(DigitsValue(0, token[..position]), digit, SIZE_LIMIT);
      parsedIndex := (10 * parsedIndex + (pointer[position] as int - '0' as int)) % SIZE_LIMIT;
      position := position + 1;
    }
    if position < |pointer| && pointer[position] != '/' {
      assert pointer[position] in token;
      return None;
    }
    assert token[..position] == token;
    return Some(parsedIndex);
  }

  // ---------- nodes and pointers ----------

  type Position = seq<nat>

  function Children(j: Json): seq<Json> {
    match j
    case Array(items) => items
    case Object(members) => seq(|members|, i requires 0 <= i < |members| => members[i].value)
    case _ => []
  }

  predicate IsNode(j: Json, pos: Position)
    decreases |pos|
  {
    pos == [] || (pos[0] < |Children(j)| && IsNode(Children(j)[pos[0]], pos[1..]))
  }

  function NodeAt(j: Json, pos: Position): Json
    requires IsNode(j, pos)
    decreases |pos|
  {
    if pos == [] then j else NodeAt(Children(j)[pos[0]], pos[1..])
  }

  function SetChild(j: Json, i: nat, child: Json): Json
    requires i < |Children(j)|
  {
    match j
    case Array(items) => Array(items[i := child])
    case Object(members) => Object(members[i := members[i].(value := child)])
  }

  /** The tree after the node at `pos` was overwritten in place. */
  function Put(j: Json, pos: Position, node: Json): Json
    requires IsNode(j, pos)
    decreases |pos|
  {
    if pos == [] then node
    else SetChild(j, pos[0], Put(Children(j)[pos[0]], pos[1..], node))
  }

  /** First member whose name the token at the front of `pointer` encodes, or the number of members. */
  function MatchIndex(members: seq<Member<Json>>, pointer: string, caseSensitive: bool): (i: nat)
    ensures i <= |members|
    ensures i < |members| ==> Norm(caseSensitive, Segment(pointer)) == Norm(caseSensitive, Encode(members[i].key))
    ensures forall k :: 0 <= k < i ==> Norm(caseSensitive, Segment(pointer)) != Norm(caseSensitive, Encode(members[k].key))
  {
    if members == [] then 0
    else if Norm(caseSensitive, Segment(pointer)) == Norm(caseSensitive, Encode(members[0].key)) then 0
    else 1 + MatchIndex(members[1..], pointer, caseSensitive)
  }

  lemma {:induction false} MatchIndexIs(members: seq<Member<Json>>, pointer: string, caseSensitive: bool, i: nat)
    requires i < |members| && Norm(caseSensitive, Segment(pointer)) == Norm(caseSensitive, Encode(members[i].key))
    requires forall k :: 0 <= k < i ==>
        Norm(caseSensitive, Encode(members[k].key)) != Norm(caseSensitive, Encode(members[i].key))
    ensures MatchIndex(members, pointer, caseSensitive) == i
  {
    if i > 0 {
      assert Norm(caseSensitive, Encode(members[0].key)) != Norm(caseSensitive, Encode(members[i].key));
      MatchIndexIs(members[1..], pointer, caseSensitive, i - 1);
    }
  }

  /** The child a token selects, or None. */
  function Step(j: Json, pointer: string, caseSensitive: bool): (r: Option<nat>)
    ensures r.Some? ==> r.value < |Children(j)|
  {
    match j
    case Array(items) =>
      var index := IndexToken(Segment(pointer));
      if index.Some? && index.value < |items| then index else None
    case Object(members) =>
      var i := MatchIndex(members, pointer, caseSensitive);
      if i < |members| then Some(i) else None
    case _ => None
  }

  function Under(i: nat, pos: Option<Position>): Option<Position> {
    if pos.Some? then Some([i] + pos.value) else None
  }

  /** The node a pointer leads to. A pointer that does not start with '/' stays where it is. */
  function Locate(j: Json, pointer: string, caseSensitive: bool): (r: Option<Position>)
    ensures r.Some? ==> IsNode(j, r.value)
    decreases |pointer|
  {
    if pointer == "" || pointer[0] != '/' then Some([])
    else
      var step := Step(j, pointer[1..], caseSensitive);
      if step == None then None
      else
        var r := Locate(Children(j)[step.value], SkipSegment(pointer[1..]), caseSensitive);
        assert r.Some? ==> ([step.value] + r.value)[1..] == r.value;
        Under(step.value, r)
  }

  /** The member search of get_item_from_pointer. */
  method FindMember(members: seq<Member<Json>>, token: string, caseSensitive: bool) returns (i: nat)
    ensures i == MatchIndex(members, token, caseSensitive)
  {
    i := 0;
    assert members[0..] == members;
    while i < |members|
      invariant i <= |members|
      invariant MatchIndex(members, token, caseSensitive) == i + MatchIndex(members[i..], token, caseSensitive)
    {
      var equal := ComparePointers(members[i].key, token, caseSensitive);
      if equal {
        return;
      }
      assert members[i..][1..] == members[i + 1..];
      i := i + 1;
    }
  }

  /** The two branches of get_item_from_pointer: an array index, or the first member the token names. */
  method FindChild(current: Json, token: string, caseSensitive: bool) returns (child: Option<nat>)
    ensures child == Step(current, token, caseSensitive)
  {
    match current {
      case Array(items) =>
        var index := DecodeArrayIndexFromPointer(token);
        return if index.Some? && index.value < |items| then index else None;
      case Object(members) =>
        var i := FindMember(members, token, caseSensitive);
        return if i < |members| then Some(i) else None;
      case _ =>
        return None;
    }
  }

  /** Skip to the next '/' or to the end. */
  method SkipToken(pointer: string) returns (rest: string)
    ensures rest == SkipSegment(pointer)
  {
    var skipped := 0;
    while skipped < |pointer| && pointer[skipped] != '/'
      invariant skipped <= |Segment(pointer)|
    {
      skipped := skipped + 1;
    }
    return pointer[skipped..];
  }

  /** get_item_from_pointer: one path token per turn of the loop. */
  method GetItemFromPointer(root: Json, pointer: string, caseSensitive: bool) returns (node: Option<Position>)
    ensures node == Locate(root, pointer, caseSensitive)
  {
    var current, pos: Position, rest := root, [], pointer;
    assert forall q: Position :: [] + q == q;
    while rest != "" && rest[0] == '/'
      invariant Locate(root, pointer, caseSensitive) == Prefixed(pos, Locate(current, rest, caseSensitive))
      decreases |rest|
    {
      rest := rest[1..];
      var child := FindChild(current, rest, caseSensitive);
      if child == None {
        return None;
      }
      current := Children(current)[child.value];
      rest := SkipToken(rest);
      PrefixedStep(pos, child.value, Locate(current, rest, caseSensitive));
      pos := pos + [child.value];
    }
    assert pos + [] == pos;
    return Some(pos);
  }

  function Prefixed(pos: Position, r: Option<Position>): Option<Position> {
    if r.Some? then Some(pos + r.value) else None
  }

  lemma PrefixedStep(pos: Position, i: nat, r: Option<Position>)
    ensures Prefixed(pos, Under(i, r)) == Prefixed(pos + [i], r)
  {
    if r.Some? {
      assert pos + ([i] + r.value) == pos + [i] + r.value;
    }
  }
}
