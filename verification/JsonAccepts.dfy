/** The parser accepts nothing but JSON texts: what it reads as a tree is derived by the grammar, and stands for that tree. */
module JsonAccepts {
  import opened CStrings
  import opened JsonTrees
  import opened JsonText
  import opened JsonParse
  import opened JsonSpelling
  import opened JsonGrammar

  /** Four hexadecimal digits behind every \u, so that none is read as a NUL. */
  predicate UnitsWhole(c: string) {
    forall q: nat :: q < |c| ==> UnitWhole(c, q)
  }

  predicate UnitWhole(c: string, q: nat) {
    q + 1 < |c| && c[q] == '\\' && c[q + 1] == 'u' ==>
      q + 6 <= |c| && IsHex(c[q + 2]) && IsHex(c[q + 3]) && IsHex(c[q + 4]) && IsHex(c[q + 5])
  }

  ghost predicate Context(c: string, strtod: Strtod) {
    Terminated(c) && Reads(strtod) && UnitsWhole(c)
  }

  // ---------- white space ----------

  lemma SliceAt(c: string, a: nat, b: nat)
    requires a <= b <= |c|
    ensures At(c, a, c[a..b])
  {
    AtFrom(c, a, c[a..b]);
  }

  lemma AtSlice(c: string, o: nat, text: string)
    requires At(c, o, text)
    ensures c[o..o + |text|] == text
  {
    AtIndices(c, o, text);
    forall i | 0 <= i < |text| ensures c[o..o + |text|][i] == text[i] {
      assert c[o + i] == text[i];
    }
  }

  lemma Slices(c: string, s: nat, stop: nat, end: nat)
    requires s <= stop < end <= |c|
    ensures c[s..end] == c[s..stop] + [c[stop]] + c[stop + 1..end]
  {
  }

  /** What the parser skips is white space. */
  lemma {:induction false} SkippedBlank(c: string, a: nat) returns (blank: string)
    requires Terminated(c) && a < |c|
    ensures Blank(blank) && At(c, a, blank) && Skip(c, a) == a + |blank|
    decreases |c| - a
  {
    var b := Skip(c, a);
    blank := c[a..b];
    SliceAt(c, a, b);
    SkippedInside(c, a, b);
  }

  lemma {:induction false} SkippedInside(c: string, a: nat, b: nat)
    requires Terminated(c) && a < |c| && b == Skip(c, a)
    ensures forall i :: a <= i < b ==> NUL < c[i] <= ' '
    decreases |c| - a
  {
    if a < b {
      assert c[a] <= ' ' && c[a] != NUL;
      SkippedInside(c, a + 1, b);
    }
  }

  // ---------- strings and numbers ----------

  lemma NoBadUnit(c: string, q: nat, end: nat)
    requires UnitsWhole(c) && end < |c| && c[end] == '\"'
    ensures !BadUnit(c, q, end)
  {
    assert UnitWhole(c, q);
    if q + 1 < end && c[q] == '\\' && c[q + 1] == 'u' && q + 6 > end {
      HexadecimalIs(c[end]);
    }
  }

  /** A string that is read has been spelled. */
  lemma StringOnly(c: string, o: nat) returns (ps: seq<Piece>)
    requires Terminated(c) && UnitsWhole(c) && o < |c| && ParseStringAt(c, o).Parsed?
    ensures Spelled(ps) && At(c, o, Quoted(ps)) && ParseStringAt(c, o) == Parsed(Value(ps), o + |Quoted(ps)|)
  {
    var end, q := ClosingQuote(c, o + 1).value, 0;
    ps, q := EveryBody(c, o + 1, end);
    NoBadUnit(c, q, end);
    AtOne(c, o, '\"');
    AtOne(c, end, '\"');
    AtJoin3(c, o, ['\"'], Spell(ps), ['\"']);
    EverySpelling(ps, c, o);
  }

  lemma NumberOnly(c: string, o: nat, strtod: Strtod) returns (x: Syntax)
    requires Terminated(c) && Reads(strtod) && o < |c| && (c[o] == '-' || IsDigit(c[o]))
    requires ParseNumberAt(c, o, strtod).Parsed? && Follows(c, ParseNumberAt(c, o, strtod).offset)
    ensures WellFormed(x, strtod) && At(c, o, Write(x)) && ParseNumberAt(c, o, strtod) == Parsed(Tree(x, strtod), o + |Write(x)|)
  {
    var token := NumberToken(c, o, 63);
    WholeToken(c, o, strtod);
    TokenShort(c, o, 63);
    AtFrom(c, o, token);
    x := Numeric(token, strtod(token).value.0);
  }

  lemma WordOnly(c: string, o: nat) returns (value: Json)
    requires Terminated(c) && ParseWord(c, o).Parsed?
    ensures (value.Null? || value.False? || value.True?) && At(c, o, Write(Word(value)))
    ensures ParseWord(c, o) == Parsed(value, o + |Write(Word(value))|)
  {
    value := ParseWord(c, o).value;
  }

  // ---------- values ----------

  /** The text of a value that was read. */
  ghost predicate Derives(x: Syntax, c: string, o: nat, j: Json, e: nat, strtod: Strtod) {
    WellFormed(x, strtod) && At(c, o, Write(x)) && e == o + |Write(x)| && Tree(x, strtod) == j
  }

  lemma {:induction false} ValueOnly(c: string, o: nat, d: nat, strtod: Strtod, j: Json, e: nat) returns (x: Syntax)
    requires Context(c, strtod) && o < |c| && ParseValueAt(c, o, d, strtod) == Parsed(j, e) && e < |c| && Follows(c, e)
    ensures Derives(x, c, o, j, e, strtod)
    decreases |c| - o, 3
  {
    if ParseWord(c, o).Parsed? {
      var value := WordOnly(c, o);
      x := Word(value);
    } else if c[o] == '\"' {
      var ps := StringOnly(c, o);
      x := Text(ps);
    } else if c[o] == '-' || IsDigit(c[o]) {
      x := NumberOnly(c, o, strtod);
    } else if c[o] == '[' {
      x := ArrayOnly(c, o, d, strtod, j, e);
    } else {
      x := ObjectOnly(c, o, d, strtod, j, e);
    }
  }

  lemma BracketedAt(c: string, o: nat, open: char, blank: string, inner: string, close: char)
    requires o < |c| && c[o] == open && At(c, o + 1, blank) && At(c, o + 1 + |blank|, inner)
    requires o + 1 + |blank| + |inner| < |c| && c[o + 1 + |blank| + |inner|] == close
    ensures At(c, o, [open] + (blank + inner) + [close])
  {
    AtOne(c, o, open);
    AtOne(c, o + 1 + |blank| + |inner|, close);
    AtJoin(c, o + 1, blank, inner);
    AtJoin3(c, o, [open], blank + inner, [close]);
  }

  lemma ListDerives(c: string, o: nat, blank: string, elements: seq<Element>, inner: string, items: seq<Json>, stop: nat, strtod: Strtod)
    returns (x: Syntax)
    requires o < |c| && c[o] == '[' && At(c, o + 1, blank) && Blank(blank) && inner == WriteElements(elements)
    requires o + 1 + |blank| <= stop < |c| && c[o + 1 + |blank|..stop] == inner && c[stop] == ']'
    requires AllElements(elements, strtod) && Trees(elements, strtod) == items
    ensures Derives(x, c, o, Array(items), stop + 1, strtod)
  {
    SliceAt(c, o + 1 + |blank|, stop);
    BracketedAt(c, o, '[', blank, inner, ']');
    x := List(blank, elements);
    ListParts(blank, elements, strtod);
  }

  lemma {:induction false} ArrayOnly(c: string, o: nat, d: nat, strtod: Strtod, j: Json, e: nat) returns (x: Syntax)
    requires Context(c, strtod) && o < |c| && c[o] == '[' && ParseArrayAt(c, o, d, strtod) == Parsed(j, e)
    ensures Derives(x, c, o, j, e, strtod)
    decreases |c| - o, 2
  {
    var blank := SkippedBlank(c, o + 1);
    var first := Skip(c, o + 1);
    var empty, items, stop := ArrayLoop(c, o, d, strtod, j, e, first);
    if empty {
      x := ListDerives(c, o, blank, [], "", [], stop, strtod);
    } else {
      var elements, inner := ItemsOnly(c, first - 1, d + 1, strtod, items, stop);
      x := ListDerives(c, o, blank, elements, inner, items, stop, strtod);
    }
  }

  /** What parse_array relied on. */
  lemma ArrayLoop(c: string, o: nat, d: nat, strtod: Strtod, j: Json, e: nat, first: nat) returns (empty: bool, items: seq<Json>, stop: nat)
    requires Terminated(c) && Reads(strtod) && o + 1 < |c| && c[o] == '[' && ParseArrayAt(c, o, d, strtod) == Parsed(j, e)
    requires first == Skip(c, o + 1)
    ensures empty ==> c[first] == ']' && stop == first && items == []
    ensures !empty ==> first > 0 && ParseItems(c, first - 1, d + 1, strtod) == Parsed(items, stop)
    ensures stop < |c| && c[stop] == ']' && j == Array(items) && e == stop + 1
  {
    empty, items, stop := c[first] == ']', [], first;
    if !empty {
      var r := ParseItems(c, first - 1, d + 1, strtod);
      items, stop := r.value, r.offset;
    }
  }

  /** What a turn of its loop relied on. */
  lemma ItemsParts(c: string, o: nat, d: nat, strtod: Strtod, items: seq<Json>, end: nat) returns (j: Json, stop: nat, others: seq<Json>)
    requires Terminated(c) && Reads(strtod) && o + 1 < |c| && ParseItems(c, o, d, strtod) == Parsed(items, end)
    ensures ParseItem(c, o, d, strtod) == Parsed(j, stop) && o < stop < |c| && items == [j] + others
    ensures if c[stop] == ',' then stop + 1 < |c| && others != [] && ParseItems(c, stop, d, strtod) == Parsed(others, end)
            else stop == end && others == []
  {
    ItemsUnfold(c, o, d, strtod);
    var item := ParseItem(c, o, d, strtod);
    j, stop, others := item.value, item.offset, [];
    if c[stop] == ',' {
      ItemsUnfold(c, stop, d, strtod);
      others := ParseItems(c, stop, d, strtod).value;
    }
  }

  lemma {:induction false} ItemsOnly(c: string, o: nat, d: nat, strtod: Strtod, items: seq<Json>, end: nat) returns (elements: seq<Element>, text: string)
    requires Context(c, strtod) && o + 1 < |c| && ParseItems(c, o, d, strtod) == Parsed(items, end) && end < |c| && c[end] == ']'
    ensures AllElements(elements, strtod) && text == WriteElements(elements) && o < end && c[o + 1..end] == text
    ensures Trees(elements, strtod) == items
    decreases |c| - o, 1
  {
    var j, stop, others := ItemsParts(c, o, d, strtod, items, end);
    var element := ItemOnly(c, o, d, strtod, j, stop);
    var rest: seq<Element>, more: string := [], "";
    if c[stop] == ',' {
      rest, more := ItemsOnly(c, stop, d, strtod, others, end);
    }
    elements, text := AddElement(c, o + 1, element, rest, more, stop, end, strtod);
  }

  function ElementText(e: Element): string {
    e.before + Write(e.value) + e.after
  }

  /** An element, and the ones behind its comma. */
  lemma AddElement(c: string, s: nat, element: Element, rest: seq<Element>, more: string, stop: nat, end: nat, strtod: Strtod)
    returns (elements: seq<Element>, text: string)
    requires s <= stop < |c| && end <= |c| && c[s..stop] == ElementText(element)
    requires GoodElement(element, strtod) && AllElements(rest, strtod)
    requires if rest != [] then c[stop] == ',' && stop < end && more == WriteElements(rest) && c[stop + 1..end] == more else end == stop
    ensures text == WriteElements(elements) && s <= end && c[s..end] == text
    ensures AllElements(elements, strtod) && Trees(elements, strtod) == [Tree(element.value, strtod)] + Trees(rest, strtod)
  {
    elements := [element] + rest;
    assert elements[1..] == rest;
    text := ElementText(element);
    if rest != [] {
      Slices(c, s, stop, end);
      text := text + "," + more;
    } else {
      assert text + "" + "" == text;
    }
  }

  /** Where the value of an element stands. */
  lemma ItemParts(c: string, o: nat, d: nat, strtod: Strtod, j: Json, stop: nat) returns (v: nat, e: nat)
    requires Terminated(c) && Reads(strtod) && o + 1 < |c| && ParseItem(c, o, d, strtod) == Parsed(j, stop)
    ensures v == Skip(c, o + 1) && v < |c| && ParseValueAt(c, v, d, strtod) == Parsed(j, e) && e < |c| && stop == Skip(c, e)
  {
    v := Skip(c, o + 1);
    e := ParseValueAt(c, v, d, strtod).offset;
  }

  /** One element with the white space around it. */
  lemma {:induction false} ItemOnly(c: string, o: nat, d: nat, strtod: Strtod, j: Json, stop: nat) returns (element: Element)
    requires Context(c, strtod) && o + 1 < |c| && ParseItem(c, o, d, strtod) == Parsed(j, stop) && stop < |c| && (c[stop] == ',' || c[stop] == ']')
    ensures GoodElement(element, strtod) && Tree(element.value, strtod) == j
    ensures o < stop && c[o + 1..stop] == ElementText(element)
    decreases |c| - o, 0
  {
    var v, e := ItemParts(c, o, d, strtod, j, stop);
    var before := SkippedBlank(c, o + 1);
    var after := SkippedBlank(c, e);
    var x := ValueOnly(c, v, d, strtod, j, e);
    element := Element(before, x, after);
    AtJoin3(c, o + 1, before, Write(x), after);
    AtSlice(c, o + 1, ElementText(element));
  }

  // ---------- objects ----------

  lemma RecordDerives(c: string, o: nat, blank: string, fields: seq<Field>, inner: string, members: seq<Member<Json>>, stop: nat, strtod: Strtod)
    returns (x: Syntax)
    requires o < |c| && c[o] == '{' && At(c, o + 1, blank) && Blank(blank) && inner == WriteFields(fields)
    requires o + 1 + |blank| <= stop < |c| && c[o + 1 + |blank|..stop] == inner && c[stop] == '}'
    requires AllFields(fields, strtod) && Members(fields, strtod) == members
    ensures Derives(x, c, o, Object(members), stop + 1, strtod)
  {
    SliceAt(c, o + 1 + |blank|, stop);
    BracketedAt(c, o, '{', blank, inner, '}');
    x := Record(blank, fields);
    RecordParts(blank, fields, strtod);
  }

  lemma {:induction false} ObjectOnly(c: string, o: nat, d: nat, strtod: Strtod, j: Json, e: nat) returns (x: Syntax)
    requires Context(c, strtod) && o < |c| && c[o] == '{' && ParseObjectAt(c, o, d, strtod) == Parsed(j, e)
    ensures Derives(x, c, o, j, e, strtod)
    decreases |c| - o, 2
  {
    var blank := SkippedBlank(c, o + 1);
    var first := Skip(c, o + 1);
    var empty, members, stop := ObjectLoop(c, o, d, strtod, j, e, first);
    if empty {
      x := RecordDerives(c, o, blank, [], "", [], stop, strtod);
    } else {
      var fields, inner := MembersOnly(c, first - 1, d + 1, strtod, members, stop);
      x := RecordDerives(c, o, blank, fields, inner, members, stop, strtod);
    }
  }

  /** What parse_object relied on. */
  lemma ObjectLoop(c: string, o: nat, d: nat, strtod: Strtod, j: Json, e: nat, first: nat) returns (empty: bool, members: seq<Member<Json>>, stop: nat)
    requires Terminated(c) && Reads(strtod) && o + 1 < |c| && c[o] == '{' && ParseObjectAt(c, o, d, strtod) == Parsed(j, e)
    requires first == Skip(c, o + 1)
    ensures empty ==> c[first] == '}' && stop == first && members == []
    ensures !empty ==> first > 0 && ParseMembers(c, first - 1, d + 1, strtod) == Parsed(members, stop)
    ensures stop < |c| && c[stop] == '}' && j == Object(members) && e == stop + 1
  {
    empty, members, stop := c[first] == '}', [], first;
    if !empty {
      var r := ParseMembers(c, first - 1, d + 1, strtod);
      members, stop := r.value, r.offset;
    }
  }

  lemma MembersParts(c: string, o: nat, d: nat, strtod: Strtod, members: seq<Member<Json>>, end: nat)
    returns (m: Member<Json>, stop: nat, others: seq<Member<Json>>)
    requires Terminated(c) && Reads(strtod) && o + 1 < |c| && ParseMembers(c, o, d, strtod) == Parsed(members, end)
    ensures ParseMember(c, o, d, strtod) == Parsed(m, stop) && o < stop < |c| && members == [m] + others
    ensures if c[stop] == ',' then stop + 1 < |c| && others != [] && ParseMembers(c, stop, d, strtod) == Parsed(others, end)
            else stop == end && others == []
  {
    MembersUnfold(c, o, d, strtod);
    var r := ParseMember(c, o, d, strtod);
    m, stop, others := r.value, r.offset, [];
    if c[stop] == ',' {
      MembersUnfold(c, stop, d, strtod);
      others := ParseMembers(c, stop, d, strtod).value;
    }
  }

  lemma {:induction false} FirstMemberOnly(c: string, o: nat, d: nat, strtod: Strtod, members: seq<Member<Json>>, end: nat)
    returns (m: Member<Json>, stop: nat, others: seq<Member<Json>>, field: Field, line: string)
    requires Context(c, strtod) && o + 1 < |c| && ParseMembers(c, o, d, strtod) == Parsed(members, end) && end < |c| && c[end] == '}'
    ensures Names(field, m, strtod) && line == WriteField(field) && o < stop < |c| && c[o + 1..stop] == line
    ensures members == [m] + others
    ensures if c[stop] == ',' then stop + 1 < |c| && others != [] && ParseMembers(c, stop, d, strtod) == Parsed(others, end)
            else stop == end && others == []
    decreases |c| - o, 1, 0
  {
    m, stop, others := MembersParts(c, o, d, strtod, members, end);
    field, line := MemberOnly(c, o, d, strtod, m, stop);
  }

  lemma {:induction false} MembersOnly(c: string, o: nat, d: nat, strtod: Strtod, members: seq<Member<Json>>, end: nat)
    returns (fields: seq<Field>, text: string)
    requires Context(c, strtod) && o + 1 < |c| && ParseMembers(c, o, d, strtod) == Parsed(members, end) && end < |c| && c[end] == '}'
    ensures AllFields(fields, strtod) && text == WriteFields(fields) && o < end && c[o + 1..end] == text
    ensures Members(fields, strtod) == members
    decreases |c| - o, 1
  {
    var m, stop, others, field, line := FirstMemberOnly(c, o, d, strtod, members, end);
    var rest: seq<Field>, more: string := [], "";
    if c[stop] == ',' {
      rest, more := MembersOnly(c, stop, d, strtod, others, end);
    }
    fields, text := AddField(c, o + 1, field, line, m, rest, more, stop, end, strtod);
  }

  /** The text of a member that was read. */
  ghost predicate Names(field: Field, m: Member<Json>, strtod: Strtod) {
    GoodField(field, strtod) && Value(field.name) == m.key && Tree(field.value, strtod) == m.value
  }

  /** A member, and the ones behind its comma. */
  lemma AddField(c: string, s: nat, field: Field, line: string, m: Member<Json>, rest: seq<Field>, more: string, stop: nat, end: nat,
                 strtod: Strtod)
    returns (fields: seq<Field>, text: string)
    requires s <= stop < |c| && end <= |c| && line == WriteField(field) && c[s..stop] == line
    requires Names(field, m, strtod) && AllFields(rest, strtod)
    requires if rest != [] then c[stop] == ',' && stop < end && more == WriteFields(rest) && c[stop + 1..end] == more else end == stop
    ensures text == WriteFields(fields) && s <= end && c[s..end] == text
    ensures AllFields(fields, strtod) && Members(fields, strtod) == [m] + Members(rest, strtod)
  {
    fields := [field] + rest;
    assert fields[1..] == rest;
    text := line;
    if rest != [] {
      Slices(c, s, stop, end);
      text := text + "," + more;
    } else {
      assert text + "" + "" == text;
    }
  }

  lemma NamePlaces(c: string, o: nat, name: string, colon: nat) returns (q: nat, e: nat)
    requires Terminated(c) && o + 1 < |c| && ParseName(c, o) == Parsed(name, colon) && colon < |c|
    ensures q == Skip(c, o + 1) && q < |c| && ParseStringAt(c, q) == Parsed(name, e) && e < |c| && colon == Skip(c, e) && c[colon] == ':'
  {
    q := Skip(c, o + 1);
    e := ParseStringAt(c, q).offset;
  }

  function NameText(before: string, ps: seq<Piece>, gap: string): string {
    before + Quoted(ps) + gap + [':']
  }

  /** A name up to its colon. */
  lemma NameOnly(c: string, o: nat, name: string, colon: nat) returns (before: string, ps: seq<Piece>, gap: string)
    requires Terminated(c) && UnitsWhole(c) && o + 1 < |c| && ParseName(c, o) == Parsed(name, colon) && colon < |c|
    ensures Blank(before) && Spelled(ps) && Blank(gap) && Value(ps) == name
    ensures At(c, o + 1, NameText(before, ps, gap)) && colon == o + |NameText(before, ps, gap)|
  {
    var q, e := NamePlaces(c, o, name, colon);
    before := SkippedBlank(c, o + 1);
    ps := StringOnly(c, q);
    gap := SkippedBlank(c, e);
    AtOne(c, colon, ':');
    AtJoin4(c, o + 1, before, Quoted(ps), gap, [':']);
  }

  lemma MemberParts(c: string, o: nat, d: nat, strtod: Strtod, m: Member<Json>, stop: nat) returns (colon: nat, e: nat)
    requires Terminated(c) && Reads(strtod) && o + 1 < |c| && ParseMember(c, o, d, strtod) == Parsed(m, stop)
    ensures ParseName(c, o) == Parsed(m.key, colon) && o < colon && colon + 1 < |c|
    ensures ParseValueAt(c, Skip(c, colon + 1), d, strtod) == Parsed(m.value, e) && e < |c| && stop == Skip(c, e)
  {
    colon := ParseName(c, o).offset;
    e := ParseValueAt(c, Skip(c, colon + 1), d, strtod).offset;
  }

  /** A member with the white space in it and around it. */
  lemma {:induction false} MemberOnly(c: string, o: nat, d: nat, strtod: Strtod, m: Member<Json>, stop: nat)
    returns (field: Field, line: string)
    requires Context(c, strtod) && o + 1 < |c| && ParseMember(c, o, d, strtod) == Parsed(m, stop) && stop < |c|
    requires c[stop] == ',' || c[stop] == '}'
    ensures Names(field, m, strtod)
    ensures line == WriteField(field) && o < stop && c[o + 1..stop] == line
    decreases |c| - o, 0
  {
    var colon, e := MemberParts(c, o, d, strtod, m, stop);
    var before, ps, gap := NameOnly(c, o, m.key, colon);
    var middle := SkippedBlank(c, colon + 1);
    var after := SkippedBlank(c, e);
    var x := ValueOnly(c, Skip(c, colon + 1), d, strtod, m.value, e);
    field := Field(before, ps, gap, middle, x, after);
    line := NameText(before, ps, gap) + middle + Write(x) + after;
    AtJoin4(c, o + 1, NameText(before, ps, gap), middle, Write(x), after);
    AtSlice(c, o + 1, line);
  }

  // ---------- whole texts ----------

  /** Where parse_value began and ended. */
  lemma TextParts(text: string, c: string, strtod: Strtod, j: Json) returns (mark: bool, o: nat, e: nat)
    requires NUL !in text && c == text + [NUL] && Terminated(c) && Reads(strtod) && ParseText(text, strtod, true) == Some(j)
    ensures At(c, 0, Marked(mark)) && (mark <==> |c| > 4 && At(c, 0, ByteOrderMark))
    ensures |Marked(mark)| < |c| && o == Skip(c, |Marked(mark)|) && ParseValueAt(c, o, 0, strtod) == Parsed(j, e) && e < |c|
    ensures c[Skip(c, e)] == NUL
  {
    mark := |c| > 4 && At(c, 0, ByteOrderMark);
    AtNothing(c, 0);
    o := Skip(c, |Marked(mark)|);
    e := ParseValueAt(c, o, 0, strtod).offset;
  }

  /** A text that is accepted, with nothing behind the value, is JSON text, and stands for the tree that was read: an optional byte
      order mark, white space, a value, white space. */
  lemma EveryTextAccepted(text: string, strtod: Strtod) returns (x: Syntax, mark: bool, before: string, after: string)
    requires NUL !in text && Reads(strtod) && UnitsWhole(text) && ParseText(text, strtod, true).Some?
    ensures WellFormed(x, strtod) && Blank(before) && Blank(after) && text == Marked(mark) + before + Write(x) + after
    ensures ParseText(text, strtod, true) == Some(Tree(x, strtod)) && Nesting(Tree(x, strtod)) <= 1000
  {
    var c, j := text + [NUL], ParseText(text, strtod, true).value;
    assert forall i :: 0 <= i < |text| ==> text[i] in text;
    UnitsStill(text);
    var o, e;
    mark, o, e := TextParts(text, c, strtod, j);
    x := ValueOnly(c, o, 0, strtod, j, e);
    before, after := AroundValue(text, c, mark, o, e, Write(x));
    EveryTextParses(x, mark, before, after, strtod, true);
  }

  /** The white space around the value. */
  lemma AroundValue(text: string, c: string, mark: bool, o: nat, e: nat, value: string) returns (before: string, after: string)
    requires NUL !in text && c == text + [NUL] && Terminated(c) && At(c, 0, Marked(mark)) && |Marked(mark)| < |c|
    requires o == Skip(c, |Marked(mark)|) && At(c, o, value) && e == o + |value| < |c| && c[Skip(c, e)] == NUL
    ensures Blank(before) && Blank(after) && text == Marked(mark) + before + value + after
  {
    before := SkippedBlank(c, |Marked(mark)|);
    after := SkippedBlank(c, e);
    AtJoin4(c, 0, Marked(mark), before, value, after);
    WholeText(text, c, Marked(mark) + before + value + after);
  }

  lemma UnitsStill(text: string)
    requires UnitsWhole(text)
    ensures UnitsWhole(text + [NUL])
  {
    var c := text + [NUL];
    forall q: nat | q < |c| ensures UnitWhole(c, q) {
      assert q < |text| ==> UnitWhole(text, q);
    }
  }

  lemma WholeText(text: string, c: string, all: string)
    requires c == text + [NUL] && NUL !in text && At(c, 0, all) && |all| < |c| && c[|all|] == NUL
    ensures text == all
  {
    AtIndices(c, 0, all);
    NulAtEnd(text, c, |all|);
    forall i | 0 <= i < |all| ensures text[i] == all[i] {
      assert c[0 + i] == all[i];
    }
  }

  lemma NulAtEnd(text: string, c: string, k: nat)
    requires c == text + [NUL] && NUL !in text && k < |c| && c[k] == NUL
    ensures k == |text|
  {
    assert forall i :: 0 <= i < |text| ==> c[i] == text[i] && text[i] in text;
  }
}
