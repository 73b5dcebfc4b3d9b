/**
 The parser of cJSON.c. A text is held with its terminating NUL, as cJSON_ParseWithOpts hands it on. The functions say what
 is parsed where; the Parser class is the code, with the offset and the nesting depth as its state.
 */
module JsonParse {
  import opened CStrings
  import opened JsonTrees
  import opened JsonText
  import opened Utf16

  const NESTING_LIMIT: nat := 1000

  predicate Terminated(c: string) {
    |c| > 0 && c[|c| - 1] == NUL && forall i :: 0 <= i < |c| - 1 ==> c[i] != NUL
  }

  /** strtod, as far as integers go: the value of the longest prefix that is a number, and its length. */
  type Strtod = string -> Option<(int, nat)>

  ghost predicate Reads(strtod: Strtod) {
    forall t :: strtod(t).Some? ==> 0 < strtod(t).value.1 <= |t|
  }

  datatype Parsed<+T> = Failed | Parsed(value: T, offset: nat)

  // ---------- white space, numbers, words ----------

  /** The first character from `o` on that is neither blank nor a control character, or the end. */
  function AfterBlanks(c: string, o: nat): (r: nat)
    requires o <= |c|
    ensures o <= r <= |c|
    ensures r < |c| ==> c[r] > ' '
    decreases |c| - o
  {
    if o < |c| && c[o] <= ' ' then AfterBlanks(c, o + 1) else o
  }

  /** buffer_skip_whitespace: at the very end it steps back onto the last character. */
  function Skip(c: string, o: nat): (r: nat)
    requires o < |c|
    ensures o <= r < |c|
  {
    var r := AfterBlanks(c, o);
    if r == |c| then |c| - 1 else r
  }

  predicate InNumber(c: char) {
    IsDigit(c) || c == '+' || c == '-' || c == 'e' || c == 'E' || c == '.'
  }

  /** The characters parse_number copies: at most `room` of them. */
  function NumberToken(c: string, o: nat, room: nat): (r: string)
    requires o <= |c|
    ensures o + |r| <= |c| && forall i :: 0 <= i < |r| ==> r[i] == c[o + i] && InNumber(r[i])
    decreases room
  {
    if room == 0 || o == |c| || !InNumber(c[o]) then "" else [c[o]] + NumberToken(c, o + 1, room - 1)
  }

  function ParseNumberAt(c: string, o: nat, strtod: Strtod): (r: Parsed<Json>)
    requires Terminated(c) && Reads(strtod) && o < |c|
    ensures r.Parsed? ==> o < r.offset < |c|
  {
    var token := NumberToken(c, o, 63);
    var r := strtod(token);
    TokenInside(c, o, token);
    if r == None then Failed else Parsed(Number(r.value.0), o + r.value.1)
  }

  lemma TokenInside(c: string, o: nat, token: string)
    requires Terminated(c) && o < |c| && o + |token| <= |c|
    requires forall i :: 0 <= i < |token| ==> token[i] == c[o + i] && InNumber(token[i])
    ensures o + |token| < |c|
  {
    assert token != "" ==> token[|token| - 1] == c[o + (|token| - 1)];
  }

  lemma TokenStep(c: string, o: nat, room: nat, token: string) returns (rest: string)
    requires o < |c| && room > 0 && InNumber(c[o]) && token == NumberToken(c, o, room)
    ensures rest == NumberToken(c, o + 1, room - 1) && token == [c[o]] + rest
  {
    rest := NumberToken(c, o + 1, room - 1);
  }

  lemma WordInside(c: string, o: nat, word: string)
    requires Terminated(c) && At(c, o, word) && NUL !in word && word != ""
    ensures o + |word| < |c|
  {
    AtIndex(c, o, word, 0, |word| - 1);
    assert word[|word| - 1] in word;
  }

  /** null, false or true. */
  function ParseWord(c: string, o: nat): (r: Parsed<Json>)
    requires Terminated(c)
    ensures r.Parsed? ==> o < r.offset < |c|
  {
    if At(c, o, "null") then WordInside(c, o, "null"); Parsed(Null, o + 4)
    else if At(c, o, "false") then WordInside(c, o, "false"); Parsed(False, o + 5)
    else if At(c, o, "true") then WordInside(c, o, "true"); Parsed(True, o + 4)
    else Failed
  }

  lemma NotNull(c: string, o: nat)
    requires o < |c|
    ensures c[o] != 'n' ==> !At(c, o, "null")
    ensures c[o] != 'f' ==> !At(c, o, "false")
    ensures c[o] != 't' ==> !At(c, o, "true")
  {
    assert At(c, o, "null") ==> c[o] == "null"[0];
    assert At(c, o, "false") ==> c[o] == "false"[0];
    assert At(c, o, "true") ==> c[o] == "true"[0];
  }

  lemma NotAWord(c: string, o: nat)
    requires Terminated(c) && o < |c| && c[o] != 'n' && c[o] != 'f' && c[o] != 't'
    ensures ParseWord(c, o) == Failed
  {
    NotNull(c, o);
  }

  // ---------- strings ----------

  /** The first scan of parse_string: the index of the closing quote. */
  function ClosingQuote(c: string, p: nat): (r: Option<nat>)
    requires p <= |c|
    ensures r.Some? ==> p <= r.value < |c| && c[r.value] == '\"'
    decreases |c| - p
  {
    if p == |c| then None
    else if c[p] == '\"' then Some(p)
    else if c[p] != '\\' then ClosingQuote(c, p + 1)
    else if p + 1 == |c| then None
    else ClosingQuote(c, p + 2)
  }

  /** What a two-character escape stands for. */
  function Unescaped(c: char): Option<char> {
    if c == 'b' then Some(BS)
    else if c == 'f' then Some(FF)
    else if c == 'n' then Some('\n')
    else if c == 'r' then Some('\r')
    else if c == 't' then Some('\t')
    else if c == '\"' || c == '\\' || c == '/' then Some(c)
    else None
  }

  /** The second scan, from `p` to the closing quote at `end`. It can step over the quote. */
  function Decode(c: string, p: nat, end: nat): Option<string>
    requires end < |c|
    decreases end - p
  {
    if p >= end then Some("")
    else if c[p] != '\\' then Prepend([c[p]], Decode(c, p + 1, end))
    else if c[p + 1] == 'u' then
      var literal := Literal(c, p, end);
      if literal == None then None else Prepend(literal.value.0, Decode(c, p + literal.value.1, end))
    else if Unescaped(c[p + 1]) == None then None
    else Prepend([Unescaped(c[p + 1]).value], Decode(c, p + 2, end))
  }

  function Prepend(a: string, b: Option<string>): Option<string> {
    if b == None then None else Some(a + b.value)
  }

  /** An array of characters read as a C string ends at its first NUL. */
  function CString(s: string): (r: string)
    ensures NUL !in r && r <= s && (r != s ==> s[|r|] == NUL)
    ensures NUL !in s ==> r == s
  {
    if s == "" || s[0] == NUL then "" else [s[0]] + CString(s[1..])
  }

  function ParseStringAt(c: string, o: nat): (r: Parsed<string>)
    requires Terminated(c) && o < |c|
    ensures r.Parsed? ==> o < r.offset < |c|
  {
    if c[o] != '\"' then Failed
    else
      var end := ClosingQuote(c, o + 1);
      if end == None then Failed
      else
        var s := Decode(c, o + 1, end.value);
        if s == None then Failed else Parsed(CString(s.value), end.value + 1)
  }

  // ---------- values ----------

  function ParseValueAt(c: string, o: nat, d: nat, strtod: Strtod): (r: Parsed<Json>)
    requires Terminated(c) && Reads(strtod) && o < |c|
    ensures r.Parsed? ==> o < r.offset < |c|
    decreases |c| - o, 3
  {
    if ParseWord(c, o).Parsed? then ParseWord(c, o)
    else if c[o] == '\"' then
      var s := ParseStringAt(c, o);
      if s == Failed then Failed else Parsed(String(s.value), s.offset)
    else if c[o] == '-' || IsDigit(c[o]) then ParseNumberAt(c, o, strtod)
    else if c[o] == '[' then ParseArrayAt(c, o, d, strtod)
    else if c[o] == '{' then ParseObjectAt(c, o, d, strtod)
    else Failed
  }

  function ParseArrayAt(c: string, o: nat, d: nat, strtod: Strtod): (r: Parsed<Json>)
    requires Terminated(c) && Reads(strtod) && o < |c| && c[o] == '['
    ensures r.Parsed? ==> o < r.offset < |c|
    decreases |c| - o, 2
  {
    if d >= NESTING_LIMIT then Failed
    else
      var first := Skip(c, o + 1);
      if c[first] == ']' then Parsed(Array([]), first + 1)
      else
        var items := ParseItems(c, first - 1, d + 1, strtod);
        if items == Failed || c[items.offset] != ']' then Failed else Parsed(Array(items.value), items.offset + 1)
  }

  /** One element, and the white space on both sides. */
  function ParseItem(c: string, o: nat, d: nat, strtod: Strtod): (r: Parsed<Json>)
    requires Terminated(c) && Reads(strtod) && o + 1 < |c|
    ensures r.Parsed? ==> o < r.offset < |c|
    decreases |c| - o, 0
  {
    var item := ParseValueAt(c, Skip(c, o + 1), d, strtod);
    if item == Failed then Failed else Parsed(item.value, Skip(c, item.offset))
  }

  /** The do loop of parse_array, from the character in front of an element to the one behind the last element. */
  function ParseItems(c: string, o: nat, d: nat, strtod: Strtod): (r: Parsed<seq<Json>>)
    requires Terminated(c) && Reads(strtod) && o + 1 < |c|
    ensures r.Parsed? ==> o < r.offset < |c|
    decreases |c| - o, 1
  {
    var item := ParseItem(c, o, d, strtod);
    if item == Failed then Failed
    else if c[item.offset] != ',' then Parsed([item.value], item.offset)
    else
      var rest := ParseItems(c, item.offset, d, strtod);
      if rest == Failed then Failed else Parsed([item.value] + rest.value, rest.offset)
  }

  function ParseObjectAt(c: string, o: nat, d: nat, strtod: Strtod): (r: Parsed<Json>)
    requires Terminated(c) && Reads(strtod) && o < |c| && c[o] == '{'
    ensures r.Parsed? ==> o < r.offset < |c|
    decreases |c| - o, 2
  {
    if d >= NESTING_LIMIT then Failed
    else
      var first := Skip(c, o + 1);
      if c[first] == '}' then Parsed(Object([]), first + 1)
      else
        var members := ParseMembers(c, first - 1, d + 1, strtod);
        if members == Failed || c[members.offset] != '}' then Failed else Parsed(Object(members.value), members.offset + 1)
  }

  /** A name, up to its colon. */
  function ParseName(c: string, o: nat): (r: Parsed<string>)
    requires Terminated(c) && o + 1 < |c|
    ensures r.Parsed? ==> o < r.offset && r.offset + 1 < |c|
  {
    var name := ParseStringAt(c, Skip(c, o + 1));
    if name == Failed then Failed
    else
      var colon := Skip(c, name.offset);
      if c[colon] != ':' then Failed else Parsed(name.value, colon)
  }

  /** A name, a colon, a value, and the white space around them. */
  function ParseMember(c: string, o: nat, d: nat, strtod: Strtod): (r: Parsed<Member<Json>>)
    requires Terminated(c) && Reads(strtod) && o + 1 < |c|
    ensures r.Parsed? ==> o < r.offset < |c|
    decreases |c| - o, 0
  {
    var name := ParseName(c, o);
    if name == Failed then Failed
    else
      var value := ParseValueAt(c, Skip(c, name.offset + 1), d, strtod);
      if value == Failed then Failed else Parsed(Member(name.value, value.value), Skip(c, value.offset))
  }

  function ParseMembers(c: string, o: nat, d: nat, strtod: Strtod): (r: Parsed<seq<Member<Json>>>)
    requires Terminated(c) && Reads(strtod) && o + 1 < |c|
    ensures r.Parsed? ==> o < r.offset < |c|
    decreases |c| - o, 1
  {
    var m := ParseMember(c, o, d, strtod);
    if m == Failed then Failed
    else if c[m.offset] != ',' then Parsed([m.value], m.offset)
    else
      var rest := ParseMembers(c, m.offset, d, strtod);
      if rest == Failed then Failed else Parsed([m.value] + rest.value, rest.offset)
  }

  /** Elements in front of what is still parsed. */
  function Join<T>(front: seq<T>, rest: Parsed<seq<T>>): Parsed<seq<T>> {
    if rest.Failed? then Failed else Parsed(front + rest.value, rest.offset)
  }

  lemma ItemsUnfold(c: string, o: nat, d: nat, strtod: Strtod)
    requires Terminated(c) && Reads(strtod) && o + 1 < |c|
    ensures var item := ParseItem(c, o, d, strtod);
      && (item.Parsed? && c[item.offset] == ',' ==> item.offset + 1 < |c|)
      && ParseItems(c, o, d, strtod) ==
           if item.Failed? then Failed
           else Join([item.value], if c[item.offset] == ',' then ParseItems(c, item.offset, d, strtod) else Parsed([], item.offset))
  {
    var item := ParseItem(c, o, d, strtod);
    if item.Parsed? {
      assert [item.value] + [] == [item.value];
    }
  }

  lemma MembersUnfold(c: string, o: nat, d: nat, strtod: Strtod)
    requires Terminated(c) && Reads(strtod) && o + 1 < |c|
    ensures var m := ParseMember(c, o, d, strtod);
      && (m.Parsed? && c[m.offset] == ',' ==> m.offset + 1 < |c|)
      && ParseMembers(c, o, d, strtod) ==
           if m.Failed? then Failed
           else Join([m.value], if c[m.offset] == ',' then ParseMembers(c, m.offset, d, strtod) else Parsed([], m.offset))
  {
    var m := ParseMember(c, o, d, strtod);
    if m.Parsed? {
      assert [m.value] + [] == [m.value];
    }
  }

  lemma NoName(c: string, o: nat, d: nat, strtod: Strtod)
    requires Terminated(c) && Reads(strtod) && o + 1 < |c| && ParseName(c, o) == Failed
    ensures ParseMember(c, o, d, strtod) == Failed
  {
  }

  lemma NameAndValue(c: string, o: nat, d: nat, strtod: Strtod, name: string, colon: nat, v: Parsed<Json>)
    requires Terminated(c) && Reads(strtod) && o + 1 < |c| && ParseName(c, o) == Parsed(name, colon) && o < colon && colon + 1 < |c|
    requires v == ParseValueAt(c, Skip(c, colon + 1), d, strtod)
    ensures v.Parsed? ==> v.offset < |c|
    ensures ParseMember(c, o, d, strtod) ==
            if v.Failed? then Failed else Parsed(Member(name, v.value), Skip(c, v.offset))
  {
  }

  /** cJSON_ParseWithOpts on the text in front of the NUL, without and with require_null_terminated. */
  function ParseText(text: string, strtod: Strtod, requireNullTerminated: bool): Option<Json>
    requires NUL !in text && Reads(strtod)
  {
    var c := text + [NUL];
    assert forall i :: 0 <= i < |text| ==> text[i] in text;
    var start := if |c| > 4 && At(c, 0, ByteOrderMark) then 3 else 0;
    var r := ParseValueAt(c, Skip(c, start), 0, strtod);
    if r == Failed then None
    else if requireNullTerminated && c[Skip(c, r.offset)] != NUL then None
    else Some(r.value)
  }

  const ByteOrderMark: string := [0xEF as char, 0xBB as char, 0xBF as char]
}
