/**
 JSON texts as RFC 8259 derives them: any spelling of every string, and white space wherever the grammar has it. Every such
 text is parsed as the tree it stands for, exactly up to the nesting limit.
 */
module JsonGrammar {
  import opened CStrings
  import opened JsonTrees
  import opened JsonText
  import opened JsonParse
  import opened JsonSpelling

  // ---------- the grammar ----------

  /** A text with its values, the spelling of its strings, and its white space: in front of and behind the values, the names,
      and what stands between an opening bracket and the rest. */
  datatype Syntax =
    | Word(value: Json)
    | Numeric(token: string, n: int)
    | Text(pieces: seq<Piece>)
    | List(blank: string, elements: seq<Element>)
    | Record(blank: string, fields: seq<Field>)

  datatype Element = Element(before: string, value: Syntax, after: string)

  datatype Field = Field(before: string, name: seq<Piece>, gap: string, middle: string, value: Syntax, after: string)

  /** White space; the parser takes every control character for it. */
  predicate Blank(s: string) {
    forall i :: 0 <= i < |s| ==> NUL < s[i] <= ' '
  }

  predicate Spelled(ps: seq<Piece>) {
    AllProper(ps) && Denotes(ps).Some?
  }

  /** The string a spelling stands for, as a C string. */
  function Value(ps: seq<Piece>): string
    requires Spelled(ps)
  {
    CString(Denotes(ps).value)
  }

  /** A number that strtod reads as a whole, out of at most 63 characters. */
  ghost predicate Numerical(token: string, n: int, strtod: Strtod) {
    && 0 < |token| <= 63 && (token[0] == '-' || IsDigit(token[0]))
    && (forall i :: 0 <= i < |token| ==> InNumber(token[i]))
    && strtod(token) == Some((n, |token|))
  }

  ghost predicate GoodElement(e: Element, strtod: Strtod)
    decreases e, 1
  {
    Blank(e.before) && Blank(e.after) && WellFormed(e.value, strtod)
  }

  ghost predicate AllElements(elements: seq<Element>, strtod: Strtod)
    decreases elements, 2
  {
    elements == [] || (GoodElement(elements[0], strtod) && AllElements(elements[1..], strtod))
  }

  ghost predicate GoodField(f: Field, strtod: Strtod)
    decreases f, 1
  {
    Blank(f.before) && Spelled(f.name) && Blank(f.gap) && Blank(f.middle) && WellFormed(f.value, strtod) && Blank(f.after)
  }

  ghost predicate AllFields(fields: seq<Field>, strtod: Strtod)
    decreases fields, 2
  {
    fields == [] || (GoodField(fields[0], strtod) && AllFields(fields[1..], strtod))
  }

  ghost predicate WellFormed(x: Syntax, strtod: Strtod)
    decreases x, 0
  {
    match x
    case Word(value) => value.Null? || value.False? || value.True?
    case Numeric(token, n) => Numerical(token, n, strtod)
    case Text(pieces) => Spelled(pieces)
    case List(blank, elements) => Blank(blank) && AllElements(elements, strtod)
    case Record(blank, fields) => Blank(blank) && AllFields(fields, strtod)
  }

  function Write(x: Syntax): string
    decreases x, 0
  {
    match x
    case Word(value) => if value.Null? then "null" else if value.False? then "false" else "true"
    case Numeric(token, _) => token
    case Text(pieces) => Quoted(pieces)
    case List(blank, elements) => ['['] + (blank + WriteElements(elements)) + [']']
    case Record(blank, fields) => ['{'] + (blank + WriteFields(fields)) + ['}']
  }

  function Separator(more: bool): string {
    if more then "," else ""
  }

  function WriteElements(elements: seq<Element>): string
    decreases elements, 1
  {
    if elements == [] then ""
    else
      var e := elements[0];
      e.before + Write(e.value) + e.after + Separator(|elements| > 1) + WriteElements(elements[1..])
  }

  function WriteField(f: Field): string
    decreases f, 1
  {
    f.before + Quoted(f.name) + f.gap + [':'] + f.middle + Write(f.value) + f.after
  }

  function WriteFields(fields: seq<Field>): string
    decreases fields, 1
  {
    if fields == [] then "" else WriteField(fields[0]) + Separator(|fields| > 1) + WriteFields(fields[1..])
  }

  /** The tree a text stands for. */
  ghost function Tree(x: Syntax, strtod: Strtod): Json
    requires WellFormed(x, strtod)
    decreases x, 0
  {
    match x
    case Word(value) => value
    case Numeric(_, n) => Number(n)
    case Text(pieces) => String(Value(pieces))
    case List(_, elements) => Array(Trees(elements, strtod))
    case Record(_, fields) => Object(Members(fields, strtod))
  }

  ghost function Trees(elements: seq<Element>, strtod: Strtod): (r: seq<Json>)
    requires AllElements(elements, strtod)
    ensures |r| == |elements|
    decreases elements, 1
  {
    if elements == [] then []
    else
      assert GoodElement(elements[0], strtod);
      [Tree(elements[0].value, strtod)] + Trees(elements[1..], strtod)
  }

  ghost function Members(fields: seq<Field>, strtod: Strtod): (r: seq<Member<Json>>)
    requires AllFields(fields, strtod)
    ensures |r| == |fields|
    decreases fields, 1
  {
    if fields == [] then []
    else
      assert GoodField(fields[0], strtod);
      [Member(Value(fields[0].name), Tree(fields[0].value, strtod))] + Members(fields[1..], strtod)
  }

  // ---------- white space at a place ----------

  /** Only white space from `a` up to `b`. */
  predicate Blanks(c: string, a: nat, b: nat)
    decreases b - a
  {
    a < b ==> a < |c| && c[a] <= ' ' && Blanks(c, a + 1, b)
  }

  lemma {:induction false} BlanksJoin(c: string, a: nat, b: nat, e: nat)
    requires a <= b && Blanks(c, a, b) && Blanks(c, b, e)
    ensures Blanks(c, a, e)
    decreases b - a
  {
    if a < b && a < e {
      BlanksJoin(c, a + 1, b, e);
    }
  }

  /** A text that is blank from index `k` on. */
  lemma BlankText(c: string, s: nat, text: string, k: nat)
    requires At(c, s, text) && k <= |text| && forall i :: k <= i < |text| ==> text[i] <= ' '
    ensures Blanks(c, s + k, s + |text|)
    decreases |text| - k
  {
    AtIndices(c, s, text);
    forall i | s + k <= i < s + |text| ensures c[i] <= ' ' {
      assert c[s + (i - s)] == text[i - s];
    }
    AllBlank(c, s + k, s + |text|);
  }

  lemma {:induction false} AllBlank(c: string, a: nat, b: nat)
    requires b <= |c| && forall i :: a <= i < b ==> c[i] <= ' '
    ensures Blanks(c, a, b)
    decreases b - a
  {
    if a < b {
      AllBlank(c, a + 1, b);
    }
  }

  /** Skipping white space stops at the next visible character. */
  lemma {:induction false} SkipTo(c: string, a: nat, b: nat)
    requires a <= b < |c| && Blanks(c, a, b) && c[b] > ' '
    ensures Skip(c, a) == b
    decreases b - a
  {
    if a < b {
      SkipTo(c, a + 1, b);
    }
  }

  // ---------- layouts ----------

  /** How deep arrays and objects are nested. */
  function Nesting(j: Json): nat
    decreases j
  {
    match j
    case Array(items) => 1 + NestingItems(items)
    case Object(members) => 1 + NestingMembers(members)
    case _ => 0
  }

  function Max(a: nat, b: nat): nat {
    if a < b then b else a
  }

  function NestingItems(items: seq<Json>): nat
    decreases items
  {
    if items == [] then 0 else Max(Nesting(items[0]), NestingItems(items[1..]))
  }

  function NestingMembers(members: seq<Member<Json>>): nat
    decreases members
  {
    if members == [] then 0 else Max(Nesting(members[0].value), NestingMembers(members[1..]))
  }

  /** What parsing the text of `j` at `o` has to give, at nesting depth `d`. */
  function Expected<T>(value: T, nesting: nat, d: nat, end: nat): Parsed<T> {
    if d + nesting <= NESTING_LIMIT then Parsed(value, end) else Failed
  }

  /** What the parser needs to know about a text to read `j` from `o` up to `e`: where brackets, commas and colons stand,
      and that there is only white space between them. */
  ghost predicate Laid(j: Json, c: string, o: nat, e: nat, strtod: Strtod)
    requires Terminated(c) && Reads(strtod)
    decreases j, 0
  {
    o + 1 < |c| && o < e < |c| &&
    match j
    case Array(items) =>
      var first := Skip(c, o + 1);
      && c[o] == '[' && c[e - 1] == ']'
      && if items == [] then first == e - 1 else c[first] != ']' && first > 0 && LaidItems(items, c, first - 1, e - 1, strtod)
    case Object(members) =>
      var first := Skip(c, o + 1);
      && c[o] == '{' && c[e - 1] == '}'
      && if members == [] then first == e - 1 else c[first] != '}' && first > 0 && LaidMembers(members, c, first - 1, e - 1, strtod)
    case Number(_) => (c[o] == '-' || IsDigit(c[o])) && ParseNumberAt(c, o, strtod) == Parsed(j, e)
    case String(s) => ParseStringAt(c, o) == Parsed(s, e)
    case _ => ParseWord(c, o) == Parsed(j, e)
  }

  /** The elements behind index `o`, up to the bracket at `end`. */
  ghost predicate LaidItems(items: seq<Json>, c: string, o: nat, end: nat, strtod: Strtod)
    requires items != [] && Terminated(c) && Reads(strtod)
    decreases items, 1
  {
    && o + 1 < |c| && end < |c| && c[end] == ']'
    && exists e: nat :: Laid(items[0], c, Skip(c, o + 1), e, strtod)
                   && (if |items| == 1 then Skip(c, e) == end
                       else var stop := Skip(c, e); c[stop] == ',' && LaidItems(items[1..], c, stop, end, strtod))
  }

  ghost predicate LaidMembers(members: seq<Member<Json>>, c: string, o: nat, end: nat, strtod: Strtod)
    requires members != [] && Terminated(c) && Reads(strtod)
    decreases members, 1
  {
    && end < |c| && c[end] == '}'
    && exists e: nat :: LaidMember(members[0], c, o, e, strtod)
                   && (if |members| == 1 then Skip(c, e) == end
                       else var stop := Skip(c, e); c[stop] == ',' && LaidMembers(members[1..], c, stop, end, strtod))
  }

  /** A name and its colon behind index `o`, and the value up to `e`. */
  ghost predicate LaidMember(m: Member<Json>, c: string, o: nat, e: nat, strtod: Strtod)
    requires Terminated(c) && Reads(strtod)
    decreases m, 1
  {
    && o + 1 < |c| && e < |c|
    && exists colon: nat :: ParseName(c, o) == Parsed(m.key, colon) && Laid(m.value, c, Skip(c, colon + 1), e, strtod)
  }

  // ---------- from the layout to the tree ----------

  /** parse_array, from what its loop gives. */
  lemma ArrayResult(items: seq<Json>, nesting: nat, c: string, o: nat, d: nat, strtod: Strtod, first: nat, end: nat)
    requires Terminated(c) && Reads(strtod) && o + 1 < |c| && c[o] == '[' && first == Skip(c, o + 1) && end < |c| && c[end] == ']'
    requires d < NESTING_LIMIT && c[first] != ']' ==>
        ParseItems(c, first - 1, d + 1, strtod) == Expected(items, nesting, d + 1, end)
    requires c[first] == ']' ==> items == [] && nesting == 0 && end == first
    ensures ParseArrayAt(c, o, d, strtod) == Expected(Array(items), 1 + nesting, d, end + 1)
  {
  }

  /** A turn of the loop of parse_array, from its value. */
  lemma ItemResult(j: Json, nesting: nat, c: string, o: nat, d: nat, strtod: Strtod, e: nat)
    requires Terminated(c) && Reads(strtod) && o + 1 < |c| && e < |c|
    requires ParseValueAt(c, Skip(c, o + 1), d, strtod) == Expected(j, nesting, d, e)
    ensures ParseItem(c, o, d, strtod) == Expected(j, nesting, d, Skip(c, e))
  {
  }

  /** The loop of parse_array, from its first turn and the rest. */
  lemma ItemsResult(items: seq<Json>, first: nat, others: nat, c: string, o: nat, d: nat, strtod: Strtod, stop: nat, end: nat)
    requires Terminated(c) && Reads(strtod) && o + 1 < |c| && items != [] && stop < |c|
    requires ParseItem(c, o, d, strtod) == Expected(items[0], first, d, stop)
    requires if c[stop] == ',' then stop + 1 < |c| && ParseItems(c, stop, d, strtod) == Expected(items[1..], others, d, end)
             else |items| == 1 && others == 0 && end == stop
    ensures ParseItems(c, o, d, strtod) == Expected(items, Max(first, others), d, end)
  {
    ItemsUnfold(c, o, d, strtod);
    ExpectedJoin(items[0], items[1..], first, others, d, end);
    assert [items[0]] + items[1..] == items;
  }

  lemma ExpectedJoin<T>(x: T, rest: seq<T>, first: nat, others: nat, d: nat, end: nat)
    ensures Expected([x] + rest, Max(first, others), d, end) ==
            if d + first <= NESTING_LIMIT then Join([x], Expected(rest, others, d, end)) else Failed
  {
  }

  /** parse_object, from what its loop gives. */
  lemma ObjectResult(members: seq<Member<Json>>, nesting: nat, c: string, o: nat, d: nat, strtod: Strtod, first: nat, end: nat)
    requires Terminated(c) && Reads(strtod) && o + 1 < |c| && c[o] == '{' && first == Skip(c, o + 1) && end < |c| && c[end] == '}'
    requires d < NESTING_LIMIT && c[first] != '}' ==>
        ParseMembers(c, first - 1, d + 1, strtod) == Expected(members, nesting, d + 1, end)
    requires c[first] == '}' ==> members == [] && nesting == 0 && end == first
    ensures ParseObjectAt(c, o, d, strtod) == Expected(Object(members), 1 + nesting, d, end + 1)
  {
  }

  /** The loop of parse_object, from its first turn and the rest. */
  lemma MembersResult(members: seq<Member<Json>>, first: nat, others: nat, c: string, o: nat, d: nat, strtod: Strtod, stop: nat, end: nat)
    requires Terminated(c) && Reads(strtod) && o + 1 < |c| && members != [] && stop < |c|
    requires ParseMember(c, o, d, strtod) == Expected(members[0], first, d, stop)
    requires if c[stop] == ',' then stop + 1 < |c| && ParseMembers(c, stop, d, strtod) == Expected(members[1..], others, d, end)
             else |members| == 1 && others == 0 && end == stop
    ensures ParseMembers(c, o, d, strtod) == Expected(members, Max(first, others), d, end)
  {
    MembersUnfold(c, o, d, strtod);
    ExpectedJoin(members[0], members[1..], first, others, d, end);
    assert [members[0]] + members[1..] == members;
  }

  /** A turn of the loop of parse_object, from what its parts give. */
  lemma MemberResult(m: Member<Json>, nesting: nat, c: string, o: nat, d: nat, strtod: Strtod, colon: nat, e: nat)
    requires Terminated(c) && Reads(strtod) && o < colon && colon + 1 < |c| && ParseName(c, o) == Parsed(m.key, colon)
    requires e < |c| && ParseValueAt(c, Skip(c, colon + 1), d, strtod) == Expected(m.value, nesting, d, e)
    ensures ParseMember(c, o, d, strtod) == Expected(m, nesting, d, Skip(c, e))
  {
  }

  /** A text that is laid out as `j` is parsed as `j` if the nesting limit allows it, and refused if it does not. */
  lemma {:induction false} LaidParses(j: Json, c: string, o: nat, e: nat, d: nat, strtod: Strtod)
    requires Terminated(c) && Reads(strtod) && d <= NESTING_LIMIT && Laid(j, c, o, e, strtod)
    ensures ParseValueAt(c, o, d, strtod) == Expected(j, Nesting(j), d, e)
    decreases j, 0
  {
    match j
    case Array(items) =>
      NotAWord(c, o);
      ArrayParses(items, c, o, Skip(c, o + 1), e - 1, d, strtod);
    case Object(members) =>
      NotAWord(c, o);
      ObjectParses(members, c, o, Skip(c, o + 1), e - 1, d, strtod);
    case Number(_) => NotAWord(c, o);
    case String(_) => NotAWord(c, o);
    case _ =>
  }

  lemma {:induction false} ArrayParses(items: seq<Json>, c: string, o: nat, first: nat, end: nat, d: nat, strtod: Strtod)
    requires Terminated(c) && Reads(strtod) && d <= NESTING_LIMIT
    requires o + 1 < |c| && c[o] == '[' && first == Skip(c, o + 1) && end < |c| && c[end] == ']'
    requires if items == [] then first == end else c[first] != ']' && first > 0 && LaidItems(items, c, first - 1, end, strtod)
    ensures ParseArrayAt(c, o, d, strtod) == Expected(Array(items), Nesting(Array(items)), d, end + 1)
    decreases items, 2
  {
    ItemLoopParses(items, c, first, end, d, strtod);
    ArrayResult(items, NestingItems(items), c, o, d, strtod, first, end);
  }

  lemma {:induction false} ItemLoopParses(items: seq<Json>, c: string, first: nat, end: nat, d: nat, strtod: Strtod)
    requires Terminated(c) && Reads(strtod) && d <= NESTING_LIMIT
    requires items != [] ==> first > 0 && LaidItems(items, c, first - 1, end, strtod)
    ensures items != [] && d < NESTING_LIMIT ==>
        first < |c| && ParseItems(c, first - 1, d + 1, strtod) == Expected(items, NestingItems(items), d + 1, end)
    decreases items, 2, 0
  {
    if items != [] && d < NESTING_LIMIT {
      ItemsParse(items, c, first - 1, end, d + 1, strtod);
    }
  }

  lemma {:induction false} ItemsParse(items: seq<Json>, c: string, o: nat, end: nat, d: nat, strtod: Strtod)
    requires Terminated(c) && Reads(strtod) && items != [] && d <= NESTING_LIMIT && LaidItems(items, c, o, end, strtod)
    ensures ParseItems(c, o, d, strtod) == Expected(items, NestingItems(items), d, end)
    decreases items, 1
  {
    var e: nat :| Laid(items[0], c, Skip(c, o + 1), e, strtod)
             && (if |items| == 1 then Skip(c, e) == end
                 else var stop := Skip(c, e); c[stop] == ',' && LaidItems(items[1..], c, stop, end, strtod));
    LaidParses(items[0], c, Skip(c, o + 1), e, d, strtod);
    if |items| > 1 {
      ItemsParse(items[1..], c, Skip(c, e), end, d, strtod);
    } else {
      assert items[1..] == [];
    }
    ItemResult(items[0], Nesting(items[0]), c, o, d, strtod, e);
    ItemsResult(items, Nesting(items[0]), NestingItems(items[1..]), c, o, d, strtod, Skip(c, e), end);
  }

  lemma {:induction false} ObjectParses(members: seq<Member<Json>>, c: string, o: nat, first: nat, end: nat, d: nat, strtod: Strtod)
    requires Terminated(c) && Reads(strtod) && d <= NESTING_LIMIT
    requires o + 1 < |c| && c[o] == '{' && first == Skip(c, o + 1) && end < |c| && c[end] == '}'
    requires if members == [] then first == end else c[first] != '}' && first > 0 && LaidMembers(members, c, first - 1, end, strtod)
    ensures ParseObjectAt(c, o, d, strtod) == Expected(Object(members), Nesting(Object(members)), d, end + 1)
    decreases members, 2
  {
    MemberLoopParses(members, c, first, end, d, strtod);
    ObjectResult(members, NestingMembers(members), c, o, d, strtod, first, end);
  }

  lemma {:induction false} MemberLoopParses(members: seq<Member<Json>>, c: string, first: nat, end: nat, d: nat, strtod: Strtod)
    requires Terminated(c) && Reads(strtod) && d <= NESTING_LIMIT
    requires members != [] ==> first > 0 && LaidMembers(members, c, first - 1, end, strtod)
    ensures members != [] && d < NESTING_LIMIT ==>
        first < |c| && ParseMembers(c, first - 1, d + 1, strtod) == Expected(members, NestingMembers(members), d + 1, end)
    decreases members, 2, 0
  {
    if members != [] && d < NESTING_LIMIT {
      MembersParse(members, c, first - 1, end, d + 1, strtod);
    }
  }

  lemma {:induction false} MemberParses(m: Member<Json>, c: string, o: nat, e: nat, d: nat, strtod: Strtod)
    requires Terminated(c) && Reads(strtod) && d <= NESTING_LIMIT && LaidMember(m, c, o, e, strtod)
    ensures ParseMember(c, o, d, strtod) == Expected(m, Nesting(m.value), d, Skip(c, e))
    decreases m, 1
  {
    var colon: nat :| ParseName(c, o) == Parsed(m.key, colon) && Laid(m.value, c, Skip(c, colon + 1), e, strtod);
    LaidParses(m.value, c, Skip(c, colon + 1), e, d, strtod);
    MemberResult(m, Nesting(m.value), c, o, d, strtod, colon, e);
  }

  lemma {:induction false} MembersParse(members: seq<Member<Json>>, c: string, o: nat, end: nat, d: nat, strtod: Strtod)
    requires Terminated(c) && Reads(strtod) && members != [] && d <= NESTING_LIMIT && LaidMembers(members, c, o, end, strtod)
    ensures o + 1 < |c| && ParseMembers(c, o, d, strtod) == Expected(members, NestingMembers(members), d, end)
    decreases members, 1
  {
    var e: nat :| LaidMember(members[0], c, o, e, strtod)
             && (if |members| == 1 then Skip(c, e) == end
                 else var stop := Skip(c, e); c[stop] == ',' && LaidMembers(members[1..], c, stop, end, strtod));
    MemberParses(members[0], c, o, e, d, strtod);
    if |members| > 1 {
      MembersParse(members[1..], c, Skip(c, e), end, d, strtod);
    } else {
      assert members[1..] == [];
    }
    MembersResult(members, Nesting(members[0].value), NestingMembers(members[1..]), c, o, d, strtod, Skip(c, e), end);
  }

  // ---------- from the grammar to the layout ----------

  lemma {:induction false} TokenBack(c: string, o: nat, token: string, room: nat)
    requires o + |token| < |c| && !InNumber(c[o + |token|]) && |token| <= room
    requires forall i :: 0 <= i < |token| ==> token[i] == c[o + i] && InNumber(token[i])
    ensures NumberToken(c, o, room) == token
    decreases |token|
  {
    if token != "" {
      assert token[0] == c[o + 0];
      assert token == [token[0]] + token[1..];
      forall i | 0 <= i < |token| - 1 ensures token[1..][i] == c[o + 1 + i] && InNumber(token[1..][i]) {
        assert token[i + 1] == c[o + (i + 1)];
      }
      TokenBack(c, o + 1, token[1..], room - 1);
    }
  }

  lemma {:induction false} TokenShort(c: string, o: nat, room: nat)
    requires o <= |c|
    ensures |NumberToken(c, o, room)| <= room
    decreases room
  {
    if room > 0 && o < |c| && InNumber(c[o]) {
      TokenShort(c, o + 1, room - 1);
    }
  }

  lemma SkipFixed(c: string, p: nat)
    requires p < |c| && c[p] > ' '
    ensures Skip(c, p) == p
  {
  }

  /** What follows a value in a text that parses: a comma, a closing bracket or the end. */
  predicate Follows(c: string, e: nat)
    requires e < |c|
  {
    var x := c[Skip(c, e)];
    x == ',' || x == ']' || x == '}' || x == NUL
  }

  /** The number was the whole token, and nothing that belongs to a number follows it. */
  lemma WholeToken(c: string, o: nat, strtod: Strtod)
    requires Terminated(c) && Reads(strtod) && o < |c| && ParseNumberAt(c, o, strtod).Parsed?
    requires Follows(c, ParseNumberAt(c, o, strtod).offset)
    ensures var token, e := NumberToken(c, o, 63), ParseNumberAt(c, o, strtod).offset;
      e == o + |token| && !InNumber(c[e])
  {
    var token, e := NumberToken(c, o, 63), ParseNumberAt(c, o, strtod).offset;
    if e < o + |token| {
      assert token[e - o] == c[o + (e - o)] && InNumber(token[e - o]);
    }
    if InNumber(c[e]) {
      SkipFixed(c, e);
    }
  }

  lemma BlankThere(c: string, s: nat, blank: string)
    requires At(c, s, blank) && Blank(blank)
    ensures Blanks(c, s, s + |blank|)
  {
    BlankText(c, s, blank, 0);
  }

  lemma SkipBlank(c: string, s: nat, blank: string)
    requires At(c, s, blank) && Blank(blank) && s + |blank| < |c| && c[s + |blank|] > ' '
    ensures Skip(c, s) == s + |blank|
  {
    BlankThere(c, s, blank);
    SkipTo(c, s, s + |blank|);
  }

  /** Behind a value stands something that cannot belong to a number. */
  predicate Ends(c: string, end: nat) {
    end < |c| && !InNumber(c[end])
  }

  /** White space and then something visible that is not part of a number. */
  lemma EndsBlank(c: string, s: nat, blank: string)
    requires At(c, s, blank) && Blank(blank) && Ends(c, s + |blank|)
    ensures Ends(c, s)
  {
    if blank != "" {
      AtChar(c, s, blank);
    }
  }

  /** A value starts with a visible character that closes nothing. */
  lemma FirstWritten(x: Syntax, strtod: Strtod)
    requires WellFormed(x, strtod)
    ensures var text := Write(x); text != "" && ' ' < text[0] < 0x80 as char && text[0] != ']' && text[0] != '}'
  {
  }

  lemma FirstChar(x: Syntax, c: string, o: nat, strtod: Strtod)
    requires WellFormed(x, strtod) && At(c, o, Write(x))
    ensures o < |c| && ' ' < c[o] && c[o] != ']' && c[o] != '}'
  {
    FirstWritten(x, strtod);
    AtChar(c, o, Write(x));
  }

  lemma WordWritten(value: Json, c: string, o: nat)
    requires Terminated(c) && (value.Null? || value.False? || value.True?) && At(c, o, Write(Word(value)))
    ensures ParseWord(c, o) == Parsed(value, o + |Write(Word(value))|)
  {
    AtChar(c, o, Write(Word(value)));
    NotNull(c, o);
  }

  lemma NumberWritten(token: string, n: int, c: string, o: nat, strtod: Strtod)
    requires Terminated(c) && Reads(strtod) && Numerical(token, n, strtod) && At(c, o, token) && Ends(c, o + |token|)
    ensures (c[o] == '-' || IsDigit(c[o])) && ParseNumberAt(c, o, strtod) == Parsed(Number(n), o + |token|)
  {
    AtIndices(c, o, token);
    AtChar(c, o, token);
    TokenBack(c, o, token, 63);
  }

  lemma ValueRead(ps: seq<Piece>, c: string, o: nat)
    requires Terminated(c) && Spelled(ps) && At(c, o, Quoted(ps))
    ensures o + |Quoted(ps)| < |c| && ParseStringAt(c, o) == Parsed(Value(ps), o + |Quoted(ps)|)
  {
    EverySpelling(ps, c, o);
  }

  lemma NameParts(f: Field, c: string, s: nat)
    requires At(c, s, f.before + Quoted(f.name) + f.gap + [':'])
    ensures var q := s + |f.before|;
      && At(c, s, f.before) && At(c, q, Quoted(f.name)) && q < |c| && c[q] == '\"' && At(c, q + |Quoted(f.name)|, f.gap)
      && s + |f.before + Quoted(f.name) + f.gap| == q + |Quoted(f.name)| + |f.gap| < |c|
      && c[q + |Quoted(f.name)| + |f.gap|] == ':'
  {
    var name := Quoted(f.name);
    AtSplit(c, s, f.before + name + f.gap, [':']);
    AtSplit(c, s, f.before + name, f.gap);
    AtSplit(c, s, f.before, name);
    AtChar(c, s + |f.before|, name);
    AtChar(c, s + |f.before + name + f.gap|, [':']);
  }

  lemma NameWritten(f: Field, c: string, o: nat, s: nat) returns (colon: nat)
    requires Terminated(c) && Spelled(f.name) && Blank(f.gap) && o + 1 < |c| && Skip(c, o + 1) == s + |f.before|
    requires At(c, s, f.before + Quoted(f.name) + f.gap + [':'])
    ensures colon == s + |f.before + Quoted(f.name) + f.gap| && colon + 1 < |c| && ParseName(c, o) == Parsed(Value(f.name), colon)
  {
    NameParts(f, c, s);
    var q := s + |f.before|;
    var e := q + |Quoted(f.name)|;
    colon := e + |f.gap|;
    ValueRead(f.name, c, q);
    SkipBlank(c, e, f.gap);
    NameThere(c, o, Value(f.name), e, colon);
  }

  lemma NameThere(c: string, o: nat, name: string, e: nat, colon: nat)
    requires Terminated(c) && o + 1 < |c| && e < |c| && colon < |c|
    requires ParseStringAt(c, Skip(c, o + 1)) == Parsed(name, e) && Skip(c, e) == colon && c[colon] == ':'
    ensures colon + 1 < |c| && ParseName(c, o) == Parsed(name, colon)
  {
  }

  lemma AtomLaid(x: Syntax, c: string, o: nat, strtod: Strtod)
    requires !x.List? && !x.Record?
    requires Terminated(c) && Reads(strtod) && WellFormed(x, strtod) && At(c, o, Write(x)) && Ends(c, o + |Write(x)|)
    ensures Laid(Tree(x, strtod), c, o, o + |Write(x)|, strtod)
  {
    FirstChar(x, c, o, strtod);
    match x
    case Word(value) => WordWritten(value, c, o);
    case Numeric(token, n) => NumberWritten(token, n, c, o, strtod);
    case Text(pieces) => ValueRead(pieces, c, o);
  }

  lemma ListParts(blank: string, elements: seq<Element>, strtod: Strtod)
    requires WellFormed(List(blank, elements), strtod)
    ensures Blank(blank) && AllElements(elements, strtod)
    ensures Write(List(blank, elements)) == ['['] + (blank + WriteElements(elements)) + [']']
    ensures Tree(List(blank, elements), strtod) == Array(Trees(elements, strtod))
  {
  }

  lemma RecordParts(blank: string, fields: seq<Field>, strtod: Strtod)
    requires WellFormed(Record(blank, fields), strtod)
    ensures Blank(blank) && AllFields(fields, strtod)
    ensures Write(Record(blank, fields)) == ['{'] + (blank + WriteFields(fields)) + ['}']
    ensures Tree(Record(blank, fields), strtod) == Object(Members(fields, strtod))
  {
  }

  /** Wherever a text stands, it is laid out as its tree. */
  lemma {:induction false} WriteLaid(x: Syntax, c: string, o: nat, strtod: Strtod)
    requires Terminated(c) && Reads(strtod) && WellFormed(x, strtod) && At(c, o, Write(x)) && Ends(c, o + |Write(x)|)
    ensures Laid(Tree(x, strtod), c, o, o + |Write(x)|, strtod)
    decreases x, 0
  {
    if x.List? {
      ListParts(x.blank, x.elements, strtod);
      ListLaid(x.blank, x.elements, WriteElements(x.elements), c, o, strtod);
    } else if x.Record? {
      RecordParts(x.blank, x.fields, strtod);
      RecordLaid(x.blank, x.fields, WriteFields(x.fields), c, o, strtod);
    } else {
      AtomLaid(x, c, o, strtod);
    }
  }

  /** Where the parts of a bracketed text stand. */
  lemma Bracketed(c: string, o: nat, open: char, blank: string, inner: string, close: char) returns (s: nat, end: nat)
    requires At(c, o, [open] + (blank + inner) + [close]) && Blank(blank) && o + |[open] + (blank + inner) + [close]| < |c|
    ensures s == o + 1 + |blank| && end == s + |inner| && end + 1 == o + |[open] + (blank + inner) + [close]|
    ensures end + 1 < |c| && c[o] == open && c[end] == close && Blanks(c, o + 1, s) && At(c, s, inner)
  {
    AtSplit(c, o, [open] + (blank + inner), [close]);
    AtSplit(c, o, [open], blank + inner);
    AtSplit(c, o + 1, blank, inner);
    AtChar(c, o, [open]);
    s, end := o + 1 + |blank|, o + 1 + |blank| + |inner|;
    AtChar(c, end, [close]);
    BlankThere(c, o + 1, blank);
  }

  lemma {:induction false} ListLaid(blank: string, elements: seq<Element>, inner: string, c: string, o: nat, strtod: Strtod)
    requires Terminated(c) && Reads(strtod) && Blank(blank) && AllElements(elements, strtod) && inner == WriteElements(elements)
    requires At(c, o, ['['] + (blank + inner) + [']']) && o + |blank| + |inner| + 2 < |c|
    ensures Laid(Array(Trees(elements, strtod)), c, o, o + |blank| + |inner| + 2, strtod)
    decreases elements, 2
  {
    var s, end := Bracketed(c, o, '[', blank, inner, ']');
    if elements == [] {
      SkipTo(c, o + 1, end);
    } else {
      assert GoodElement(elements[0], strtod);
      var first := ElementStart(elements, c, o, s, strtod);
      ElementsLaid(elements, c, first - 1, s, first, end, strtod);
    }
    ArrayFirst(Trees(elements, strtod), c, o, end, strtod);
  }

  lemma ArrayFirst(items: seq<Json>, c: string, o: nat, end: nat, strtod: Strtod)
    requires Terminated(c) && Reads(strtod) && o < end && end + 1 < |c| && c[o] == '[' && c[end] == ']'
    requires var first := Skip(c, o + 1);
      if items == [] then first == end else c[first] != ']' && first > 0 && LaidItems(items, c, first - 1, end, strtod)
    ensures Laid(Array(items), c, o, end + 1, strtod)
  {
  }

  lemma ObjectFirst(members: seq<Member<Json>>, c: string, o: nat, end: nat, strtod: Strtod)
    requires Terminated(c) && Reads(strtod) && o < end && end + 1 < |c| && c[o] == '{' && c[end] == '}'
    requires var first := Skip(c, o + 1);
      if members == [] then first == end else c[first] != '}' && first > 0 && LaidMembers(members, c, first - 1, end, strtod)
    ensures Laid(Object(members), c, o, end + 1, strtod)
  {
  }

  /** The first element's value, and the white space in front of it. */
  lemma ElementStart(elements: seq<Element>, c: string, o: nat, s: nat, strtod: Strtod) returns (first: nat)
    requires elements != [] && Blank(elements[0].before) && WellFormed(elements[0].value, strtod)
    requires o < s && Blanks(c, o + 1, s) && At(c, s, WriteElements(elements))
    ensures first == s + |elements[0].before| && o + 1 <= first < |c| && Skip(c, o + 1) == first && Skip(c, first) == first
    ensures c[first] != ']' && At(c, first, Write(elements[0].value))
  {
    var e := elements[0];
    AtSplit(c, s, e.before + Write(e.value) + e.after + Separator(|elements| > 1), WriteElements(elements[1..]));
    AtSplit(c, s, e.before + Write(e.value) + e.after, Separator(|elements| > 1));
    AtSplit(c, s, e.before + Write(e.value), e.after);
    AtSplit(c, s, e.before, Write(e.value));
    first := s + |e.before|;
    BlankThere(c, s, e.before);
    BlanksJoin(c, o + 1, s, first);
    FirstChar(e.value, c, first, strtod);
    SkipTo(c, o + 1, first);
    SkipTo(c, first, first);
  }

  /** What follows the first value: white space, and a comma or the bracket. */
  lemma ElementTail(elements: seq<Element>, c: string, s: nat, end: nat) returns (e: nat, stop: nat)
    requires elements != [] && Blank(elements[0].after) && At(c, s, WriteElements(elements))
    requires end == s + |WriteElements(elements)| && end < |c| && c[end] == ']'
    ensures e == s + |elements[0].before| + |Write(elements[0].value)| && Ends(c, e) && Skip(c, e) == stop
    ensures if |elements| == 1 then stop == end
            else c[stop] == ',' && At(c, stop + 1, WriteElements(elements[1..])) && end == stop + 1 + |WriteElements(elements[1..])|
  {
    var x, rest := elements[0], WriteElements(elements[1..]);
    AtSplit(c, s, x.before + Write(x.value) + x.after + Separator(|elements| > 1), rest);
    AtSplit(c, s, x.before + Write(x.value) + x.after, Separator(|elements| > 1));
    AtSplit(c, s, x.before + Write(x.value), x.after);
    e := s + |x.before| + |Write(x.value)|;
    stop := e + |x.after|;
    if |elements| > 1 {
      AtChar(c, stop, Separator(true));
    } else {
      assert elements[1..] == [];
    }
    EndsBlank(c, e, x.after);
    SkipBlank(c, e, x.after);
  }

  /** The elements from `s` on, the first value at `first`; `o` is where the loop starts. */
  lemma {:induction false} ElementsLaid(elements: seq<Element>, c: string, o: nat, s: nat, first: nat, end: nat, strtod: Strtod)
    requires Terminated(c) && Reads(strtod) && elements != [] && AllElements(elements, strtod)
    requires At(c, s, WriteElements(elements)) && end == s + |WriteElements(elements)| && end < |c| && c[end] == ']'
    requires first == s + |elements[0].before| && o + 1 < |c| && Skip(c, o + 1) == first && At(c, first, Write(elements[0].value))
    ensures LaidItems(Trees(elements, strtod), c, o, end, strtod)
    decreases elements, 1
  {
    assert GoodElement(elements[0], strtod);
    var e, stop := ElementTail(elements, c, s, end);
    WriteLaid(elements[0].value, c, first, strtod);
    if |elements| > 1 {
      assert GoodElement(elements[1..][0], strtod);
      var next := NextElement(elements, c, stop, strtod);
      ElementsLaid(elements[1..], c, stop, stop + 1, next, end, strtod);
    }
    TreesCons(elements, strtod);
    ItemsFirst(Trees(elements, strtod), c, o, e, end, strtod);
  }

  lemma NextElement(elements: seq<Element>, c: string, comma: nat, strtod: Strtod) returns (next: nat)
    requires |elements| > 1 && GoodElement(elements[1], strtod) && At(c, comma + 1, WriteElements(elements[1..]))
    ensures comma + 1 < |c| && next == comma + 1 + |elements[1].before| && Skip(c, comma + 1) == next
    ensures At(c, next, Write(elements[1].value))
  {
    assert Blanks(c, comma + 1, comma + 1);
    next := ElementStart(elements[1..], c, comma, comma + 1, strtod);
  }

  lemma ItemsFirst(items: seq<Json>, c: string, o: nat, e: nat, end: nat, strtod: Strtod)
    requires Terminated(c) && Reads(strtod) && items != [] && o + 1 < |c| && end < |c| && c[end] == ']'
    requires e < |c| && Laid(items[0], c, Skip(c, o + 1), e, strtod)
    requires if |items| == 1 then Skip(c, e) == end else c[Skip(c, e)] == ',' && LaidItems(items[1..], c, Skip(c, e), end, strtod)
    ensures LaidItems(items, c, o, end, strtod)
  {
  }

  /** An object from its brace to its brace, and where its first name stands. */
  lemma RecordPlaces(blank: string, fields: seq<Field>, inner: string, c: string, o: nat, strtod: Strtod) returns (s: nat, first: nat, end: nat)
    requires Blank(blank) && AllFields(fields, strtod) && inner == WriteFields(fields)
    requires At(c, o, ['{'] + (blank + inner) + ['}']) && o + |blank| + |inner| + 2 < |c|
    ensures o < end && end + 2 == o + |blank| + |inner| + 3 && end + 1 < |c| && c[o] == '{' && c[end] == '}'
    ensures At(c, s, inner) && end == s + |inner| && Skip(c, o + 1) == first
    ensures if fields == [] then first == end
            else first > 0 && c[first] != '}' && first == s + |fields[0].before| && Skip(c, first) == first
  {
    s, end := Bracketed(c, o, '{', blank, inner, '}');
    if fields == [] {
      first := end;
      SkipTo(c, o + 1, end);
    } else {
      assert GoodField(fields[0], strtod);
      first := FieldStart(fields, c, o, s);
    }
  }

  lemma {:induction false} RecordLaid(blank: string, fields: seq<Field>, inner: string, c: string, o: nat, strtod: Strtod)
    requires Terminated(c) && Reads(strtod) && Blank(blank) && AllFields(fields, strtod) && inner == WriteFields(fields)
    requires At(c, o, ['{'] + (blank + inner) + ['}']) && o + |blank| + |inner| + 2 < |c|
    ensures Laid(Object(Members(fields, strtod)), c, o, o + |blank| + |inner| + 2, strtod)
    decreases fields, 3
  {
    var s, first, end := RecordPlaces(blank, fields, inner, c, o, strtod);
    if fields != [] {
      FieldsLaid(fields, c, first - 1, s, first, end, strtod);
    }
    ObjectFirst(Members(fields, strtod), c, o, end, strtod);
  }

  /** The first name, and the white space in front of it. */
  lemma FieldStart(fields: seq<Field>, c: string, o: nat, s: nat) returns (first: nat)
    requires fields != [] && Blank(fields[0].before) && o < s && Blanks(c, o + 1, s) && At(c, s, WriteFields(fields))
    ensures first == s + |fields[0].before| && o + 1 <= first < |c| && Skip(c, o + 1) == first && Skip(c, first) == first && c[first] != '}'
  {
    var f := fields[0];
    AtSplit(c, s, WriteField(f) + Separator(|fields| > 1), WriteFields(fields[1..]));
    AtSplit(c, s, WriteField(f), Separator(|fields| > 1));
    FieldQuote(f, c, s);
    first := s + |f.before|;
    BlankThere(c, s, f.before);
    BlanksJoin(c, o + 1, s, first);
    SkipTo(c, o + 1, first);
    SkipTo(c, first, first);
  }

  lemma FieldQuote(f: Field, c: string, s: nat)
    requires At(c, s, WriteField(f))
    ensures At(c, s, f.before) && s + |f.before| < |c| && c[s + |f.before|] == '\"'
  {
    FieldParts(f, c, s);
    NameParts(f, c, s);
  }

  /** The name with its colon, the value, and the white space around it. */
  lemma FieldParts(f: Field, c: string, s: nat)
    requires At(c, s, WriteField(f))
    ensures var v := s + |f.before + Quoted(f.name) + f.gap| + 1 + |f.middle|;
      && At(c, s, f.before + Quoted(f.name) + f.gap + [':'])
      && At(c, v - |f.middle|, f.middle) && At(c, v, Write(f.value)) && At(c, v + |Write(f.value)|, f.after)
      && s + |WriteField(f)| == v + |Write(f.value)| + |f.after|
  {
    var name := f.before + Quoted(f.name) + f.gap + [':'];
    AtSplit(c, s, name + f.middle + Write(f.value), f.after);
    AtSplit(c, s, name + f.middle, Write(f.value));
    AtSplit(c, s, name, f.middle);
  }

  lemma MemberThere(m: Member<Json>, c: string, o: nat, colon: nat, e: nat, strtod: Strtod)
    requires Terminated(c) && Reads(strtod) && o + 1 < |c| && colon + 1 < |c| && e < |c|
    requires ParseName(c, o) == Parsed(m.key, colon) && Laid(m.value, c, Skip(c, colon + 1), e, strtod)
    ensures LaidMember(m, c, o, e, strtod)
  {
  }

  lemma ValuePlaces(middle: string, text: string, after: string, c: string, s: nat, v: nat, e: nat)
    requires Blank(middle) && Blank(after) && At(c, s, middle) && v == s + |middle| && At(c, v, text) && e == v + |text|
    requires text != "" && ' ' < text[0] && At(c, e, after) && Ends(c, e + |after|) && c[e + |after|] > ' '
    ensures s < |c| && Skip(c, s) == v && Ends(c, e) && Skip(c, e) == e + |after|
  {
    AtChar(c, v, text);
    SkipBlank(c, s, middle);
    EndsBlank(c, e, after);
    SkipBlank(c, e, after);
  }

  /** Where the parts of a member stand, from the white space in front of its name. */
  lemma FieldPlaces(f: Field, c: string, o: nat, s: nat, text: string, strtod: Strtod) returns (colon: nat, v: nat, e: nat)
    requires Terminated(c) && GoodField(f, strtod) && At(c, s, WriteField(f)) && text == Write(f.value)
    requires Ends(c, s + |WriteField(f)|) && c[s + |WriteField(f)|] > ' ' && o + 1 < |c| && Skip(c, o + 1) == s + |f.before|
    ensures colon + 1 < |c| && ParseName(c, o) == Parsed(Value(f.name), colon) && Skip(c, colon + 1) == v
    ensures At(c, v, text) && e == v + |text| && Ends(c, e) && Skip(c, e) == s + |WriteField(f)|
  {
    FieldParts(f, c, s);
    colon := NameWritten(f, c, o, s);
    v := colon + 1 + |f.middle|;
    e := v + |text|;
    FirstWritten(f.value, strtod);
    ValuePlaces(f.middle, text, f.after, c, colon + 1, v, e);
  }

  lemma {:induction false} FieldLaid(f: Field, c: string, o: nat, s: nat, strtod: Strtod) returns (e: nat)
    requires Terminated(c) && Reads(strtod) && GoodField(f, strtod) && At(c, s, WriteField(f))
    requires Ends(c, s + |WriteField(f)|) && c[s + |WriteField(f)|] > ' ' && o + 1 < |c| && Skip(c, o + 1) == s + |f.before|
    ensures e < |c| && LaidMember(Member(Value(f.name), Tree(f.value, strtod)), c, o, e, strtod) && Skip(c, e) == s + |WriteField(f)|
    decreases f, 1
  {
    var colon, v;
    colon, v, e := FieldPlaces(f, c, o, s, Write(f.value), strtod);
    WriteLaid(f.value, c, v, strtod);
    MemberThere(Member(Value(f.name), Tree(f.value, strtod)), c, o, colon, e, strtod);
  }

  /** Where the first member ends. */
  lemma FieldTail(fields: seq<Field>, c: string, s: nat, end: nat) returns (stop: nat)
    requires fields != [] && At(c, s, WriteFields(fields)) && end == s + |WriteFields(fields)| && end < |c| && c[end] == '}'
    ensures At(c, s, WriteField(fields[0])) && stop == s + |WriteField(fields[0])| && Ends(c, stop) && c[stop] > ' '
    ensures if |fields| == 1 then stop == end
            else c[stop] == ',' && At(c, stop + 1, WriteFields(fields[1..])) && end == stop + 1 + |WriteFields(fields[1..])|
  {
    AtSplit(c, s, WriteField(fields[0]) + Separator(|fields| > 1), WriteFields(fields[1..]));
    AtSplit(c, s, WriteField(fields[0]), Separator(|fields| > 1));
    stop := s + |WriteField(fields[0])|;
    if |fields| > 1 {
      AtChar(c, stop, Separator(true));
    } else {
      assert fields[1..] == [];
    }
  }

  lemma {:induction false} FieldsLaid(fields: seq<Field>, c: string, o: nat, s: nat, first: nat, end: nat, strtod: Strtod)
    requires Terminated(c) && Reads(strtod) && fields != [] && AllFields(fields, strtod)
    requires At(c, s, WriteFields(fields)) && end == s + |WriteFields(fields)| && end < |c| && c[end] == '}'
    requires first == s + |fields[0].before| && o + 1 < |c| && Skip(c, o + 1) == first
    ensures LaidMembers(Members(fields, strtod), c, o, end, strtod)
    decreases fields, 2
  {
    assert GoodField(fields[0], strtod);
    var stop := FieldTail(fields, c, s, end);
    var e := FieldLaid(fields[0], c, o, s, strtod);
    if |fields| > 1 {
      assert GoodField(fields[1..][0], strtod);
      var next := NextField(fields, c, stop, strtod);
      FieldsLaid(fields[1..], c, stop, stop + 1, next, end, strtod);
    }
    MembersCons(fields, strtod);
    MembersFirst(Members(fields, strtod), c, o, e, end, strtod);
  }

  lemma NextField(fields: seq<Field>, c: string, comma: nat, strtod: Strtod) returns (next: nat)
    requires |fields| > 1 && GoodField(fields[1], strtod) && At(c, comma + 1, WriteFields(fields[1..]))
    ensures comma + 1 < |c| && next == comma + 1 + |fields[1].before| && Skip(c, comma + 1) == next
  {
    assert Blanks(c, comma + 1, comma + 1);
    next := FieldStart(fields[1..], c, comma, comma + 1);
  }

  lemma MembersCons(fields: seq<Field>, strtod: Strtod)
    requires fields != [] && AllFields(fields, strtod)
    ensures GoodField(fields[0], strtod) && var all := Members(fields, strtod);
      all[0] == Member(Value(fields[0].name), Tree(fields[0].value, strtod)) && all[1..] == Members(fields[1..], strtod)
  {
  }

  lemma TreesCons(elements: seq<Element>, strtod: Strtod)
    requires elements != [] && AllElements(elements, strtod)
    ensures GoodElement(elements[0], strtod) && var all := Trees(elements, strtod);
      all[0] == Tree(elements[0].value, strtod) && all[1..] == Trees(elements[1..], strtod)
  {
  }

  lemma MembersFirst(members: seq<Member<Json>>, c: string, o: nat, e: nat, end: nat, strtod: Strtod)
    requires Terminated(c) && Reads(strtod) && members != [] && e < |c| && end < |c| && c[end] == '}'
    requires LaidMember(members[0], c, o, e, strtod)
    requires if |members| == 1 then Skip(c, e) == end else c[Skip(c, e)] == ',' && LaidMembers(members[1..], c, Skip(c, e), end, strtod)
    ensures LaidMembers(members, c, o, end, strtod)
  {
  }

  // ---------- whole texts ----------

  lemma BlankClean(s: string)
    requires Blank(s)
    ensures NUL !in s
  {
  }

  lemma {:induction false} SpellClean(ps: seq<Piece>)
    requires AllProper(ps)
    ensures NUL !in Spell(ps)
  {
    if ps != [] {
      assert Proper(ps[0]);
      PieceClean(ps[0]);
      SpellClean(ps[1..]);
    }
  }

  lemma PieceClean(x: Piece)
    requires Proper(x)
    ensures NUL !in SpellPiece(x)
  {
    if x.Unit? {
      var d := x.digits;
      HexadecimalIs(d[0]);
      HexadecimalIs(d[1]);
      HexadecimalIs(d[2]);
      HexadecimalIs(d[3]);
      assert d == [d[0], d[1], d[2], d[3]];
    }
  }

  /** No text holds a NUL. */
  lemma {:induction false} WriteClean(x: Syntax, strtod: Strtod)
    requires WellFormed(x, strtod)
    ensures NUL !in Write(x)
    decreases x, 0
  {
    match x
    case Word(_) =>
    case Numeric(token, _) =>
    case Text(pieces) => SpellClean(pieces);
    case List(blank, elements) =>
      BlankClean(blank);
      ElementsClean(elements, strtod);
    case Record(blank, fields) =>
      BlankClean(blank);
      FieldsClean(fields, strtod);
  }

  lemma {:induction false} ElementsClean(elements: seq<Element>, strtod: Strtod)
    requires AllElements(elements, strtod)
    ensures NUL !in WriteElements(elements)
    decreases elements, 1
  {
    if elements != [] {
      assert GoodElement(elements[0], strtod);
      BlankClean(elements[0].before);
      BlankClean(elements[0].after);
      WriteClean(elements[0].value, strtod);
      ElementsClean(elements[1..], strtod);
    }
  }

  lemma {:induction false} FieldClean(f: Field, strtod: Strtod)
    requires GoodField(f, strtod)
    ensures NUL !in WriteField(f)
    decreases f, 1
  {
    BlankClean(f.before);
    SpellClean(f.name);
    BlankClean(f.gap);
    BlankClean(f.middle);
    WriteClean(f.value, strtod);
    BlankClean(f.after);
  }

  lemma {:induction false} FieldsClean(fields: seq<Field>, strtod: Strtod)
    requires AllFields(fields, strtod)
    ensures NUL !in WriteFields(fields)
    decreases fields, 1
  {
    if fields != [] {
      assert GoodField(fields[0], strtod);
      FieldClean(fields[0], strtod);
      FieldsClean(fields[1..], strtod);
    }
  }

  /** A byte order mark, or none. */
  function Marked(mark: bool): string {
    if mark then ByteOrderMark else ""
  }

  /** cJSON_Parse reads every JSON text as the tree it stands for, however its strings are spelled and wherever it has white space,
      with or without a byte order mark, exactly if it is nested at most CJSON_NESTING_LIMIT deep; it refuses the deeper ones. */
  lemma EveryTextParses(x: Syntax, mark: bool, before: string, after: string, strtod: Strtod, requireNullTerminated: bool)
    requires Reads(strtod) && WellFormed(x, strtod) && Blank(before) && Blank(after)
    ensures var text := Marked(mark) + before + Write(x) + after;
      && NUL !in text
      && ParseText(text, strtod, requireNullTerminated) ==
           if Nesting(Tree(x, strtod)) <= 1000 then Some(Tree(x, strtod)) else None
  {
    var text := Marked(mark) + before + Write(x) + after;
    var o, e := TextLaid(x, mark, before, Write(x), after, text + [NUL], strtod);
    LaidText(Tree(x, strtod), text, text + [NUL], |Marked(mark)|, o, e, strtod, requireNullTerminated);
  }

  lemma TextLaid(x: Syntax, mark: bool, before: string, middle: string, after: string, c: string, strtod: Strtod) returns (o: nat, e: nat)
    requires Reads(strtod) && WellFormed(x, strtod) && Blank(before) && Blank(after) && middle == Write(x)
    requires c == Marked(mark) + before + middle + after + [NUL]
    ensures NUL !in Marked(mark) + before + middle + after && Terminated(c)
    ensures |Marked(mark)| == (if |c| > 4 && At(c, 0, ByteOrderMark) then 3 else 0) && |Marked(mark)| < |c| && e < |c|
    ensures Skip(c, |Marked(mark)|) == o && Laid(Tree(x, strtod), c, o, e, strtod) && Skip(c, e) == |c| - 1
  {
    WriteClean(x, strtod);
    TextClean(mark, before, middle, after);
    FirstWritten(x, strtod);
    o, e := Places(mark, before, middle, after, c);
    WriteLaid(x, c, o, strtod);
  }

  lemma TextClean(mark: bool, before: string, middle: string, after: string)
    requires Blank(before) && Blank(after) && NUL !in middle
    ensures var text := Marked(mark) + before + middle + after; NUL !in text && Terminated(text + [NUL])
  {
    var text := Marked(mark) + before + middle + after;
    BlankClean(before);
    BlankClean(after);
    assert NUL !in Marked(mark);
    assert forall i :: 0 <= i < |text| ==> text[i] in text;
  }

  /** cJSON_ParseWithOpts on a text that is laid out as a tree. */
  lemma LaidText(j: Json, text: string, c: string, start: nat, o: nat, e: nat, strtod: Strtod, requireNullTerminated: bool)
    requires NUL !in text && c == text + [NUL] && Terminated(c) && Reads(strtod)
    requires start == (if |c| > 4 && At(c, 0, ByteOrderMark) then 3 else 0) && start < |c| && e < |c|
    requires Skip(c, start) == o && Laid(j, c, o, e, strtod) && Skip(c, e) == |c| - 1
    ensures ParseText(text, strtod, requireNullTerminated) == if Nesting(j) <= NESTING_LIMIT then Some(j) else None
  {
    LaidParses(j, c, o, e, 0, strtod);
    TextParsed(j, text, c, start, o, e, strtod, requireNullTerminated);
  }

  lemma TextParsed(j: Json, text: string, c: string, start: nat, o: nat, e: nat, strtod: Strtod, requireNullTerminated: bool)
    requires NUL !in text && c == text + [NUL] && Terminated(c) && Reads(strtod)
    requires start == (if |c| > 4 && At(c, 0, ByteOrderMark) then 3 else 0) && start < |c| && e < |c|
    requires Skip(c, start) == o && ParseValueAt(c, o, 0, strtod) == Expected(j, Nesting(j), 0, e) && Skip(c, e) == |c| - 1
    ensures ParseText(text, strtod, requireNullTerminated) == if Nesting(j) <= NESTING_LIMIT then Some(j) else None
  {
  }

  /** Where the value stands. */
  lemma Places(mark: bool, before: string, text: string, after: string, c: string) returns (o: nat, e: nat)
    requires Blank(before) && Blank(after) && text != "" && ' ' < text[0] < 0x80 as char
    requires c == Marked(mark) + before + text + after + [NUL]
    ensures var front := |Marked(mark)|;
      && o == front + |before| && e == o + |text| && e < |c| && Ends(c, e) && At(c, o, text)
      && front == (if |c| > 4 && At(c, 0, ByteOrderMark) then 3 else 0)
      && Skip(c, front) == o && Skip(c, e) == |c| - 1
  {
    o, e := Split(Marked(mark), before, text, after, c);
    SkipBlank(c, |Marked(mark)|, before);
    EndsBlank(c, e, after);
    BlankThere(c, e, after);
    SkipToEnd(c, e, |c| - 1);
    MarkSeen(mark, before, c, o);
  }

  lemma Split(front: string, before: string, text: string, after: string, c: string) returns (o: nat, e: nat)
    requires text != "" && c == front + before + text + after + [NUL]
    ensures o == |front| + |before| && e == o + |text| && e + |after| + 1 == |c|
    ensures At(c, 0, front) && At(c, |front|, before) && At(c, o, text) && At(c, e, after)
    ensures c[o] == text[0] && c[|c| - 1] == NUL
  {
    AtWhole(c);
    AtSplit(c, 0, front + before + text + after, [NUL]);
    AtSplit(c, 0, front + before + text, after);
    AtSplit(c, 0, front + before, text);
    AtSplit(c, 0, front, before);
    o, e := |front| + |before|, |front| + |before| + |text|;
    AtChar(c, o, text);
  }

  lemma AtWhole(c: string)
    ensures At(c, 0, c)
  {
    AtFrom(c, 0, c);
  }

  /** White space up to the NUL: the skip stops there. */
  lemma {:induction false} SkipToEnd(c: string, a: nat, b: nat)
    requires a <= b && b + 1 == |c| && Blanks(c, a, b) && c[b] == NUL
    ensures Skip(c, a) == b
    decreases b - a
  {
    if a < b {
      SkipToEnd(c, a + 1, b);
    }
  }

  lemma MarkSeen(mark: bool, before: string, c: string, o: nat)
    requires At(c, 0, Marked(mark)) && At(c, |Marked(mark)|, before) && Blank(before) && o == |Marked(mark)| + |before|
    requires o + 1 < |c| && ' ' < c[o] < 0x80 as char
    ensures (|c| > 4 && At(c, 0, ByteOrderMark)) <==> mark
  {
    if !mark {
      if before != "" {
        AtChar(c, 0, before);
      }
      assert c[0] != ByteOrderMark[0];
    }
  }
}
