/** The parse_* functions of cJSON.c as they run: the parse buffer's offset and depth are updated step by step. */
module JsonParser {
  import opened CStrings
  import opened JsonTrees
  import opened JsonText
  import opened Utf16
  import opened JsonParse

  // ---------- how much parse_string writes ----------

  /** What the first scan counts from `p` on: every plain character and every two-character escape once. */
  function Units(c: string, p: nat, end: nat): nat
    requires end < |c|
    decreases end - p
  {
    if p >= end then 0 else 1 + Units(c, if c[p] == '\\' then p + 2 else p + 1, end)
  }

  /** The two scans can be out of step by one character. From `p` on, with the first scan's next unit at `q`, this many
      bytes are still set aside. */
  function Reserved(c: string, p: nat, q: nat, end: nat): int
    requires end < |c|
  {
    q - p + Units(c, q, end)
  }

  predicate InStep(p: nat, q: nat) {
    q == p || q == p + 1
  }

  function NextUnit(c: string, q: nat, end: nat): nat
    requires end < |c|
  {
    if q < end && c[q] == '\\' then q + 2 else q + 1
  }

  /** Where the first scan's next unit is after the second scan went two characters on. */
  function TwoOn(c: string, p: nat, q: nat, end: nat): nat
    requires end < |c|
  {
    if q == p && NextUnit(c, p, end) == p + 2 then p + 2 else NextUnit(c, p + 1, end)
  }

  /** Whatever the text is, two characters use up at least one reserved byte. */
  lemma TwoUse(c: string, p: nat, q: nat, end: nat)
    requires p < end < |c| && InStep(p, q)
    ensures var q' := TwoOn(c, p, q, end);
      InStep(p + 2, q') && Reserved(c, p + 2, q', end) + 1 <= Reserved(c, p, q, end)
  {
    if q == p {
      assert Units(c, p, end) == 1 + Units(c, NextUnit(c, p, end), end);
    }
    if p + 1 < end {
      assert Units(c, p + 1, end) == 1 + Units(c, NextUnit(c, p + 1, end), end);
    }
  }

  /** So a literal of six or twelve characters uses up at least half as many bytes. */
  lemma {:induction false} LiteralUse(c: string, p: nat, q: nat, end: nat, n: nat) returns (q': nat)
    requires p + 2 * n <= end < |c| && InStep(p, q)
    ensures InStep(p + 2 * n, q') && Reserved(c, p + 2 * n, q', end) + n <= Reserved(c, p, q, end)
    decreases n
  {
    q' := q;
    if n > 0 {
      TwoUse(c, p, q, end);
      q' := LiteralUse(c, p + 2, TwoOn(c, p, q, end), end, n - 1);
    }
  }

  /** A plain character uses up one, unless the first scan took it for the second half of an escape. */
  lemma OneUse(c: string, p: nat, q: nat, end: nat)
    requires p < end < |c| && InStep(p, q) && c[p] != '\\'
    ensures InStep(p + 1, p + 1) && Reserved(c, p + 1, p + 1, end) + 1 <= Reserved(c, p, q, end)
  {
  }

  // ---------- the parse buffer ----------

  class Parser {
    const content: string
    const strtod: Strtod
    var offset: nat
    var depth: nat

    ghost predicate Valid()
      reads this
    {
      Terminated(content) && Reads(strtod) && offset < |content|
    }

    constructor (text: string, strtod: Strtod)
      requires NUL !in text && Reads(strtod)
      ensures Valid() && content == text + [NUL] && this.strtod == strtod && offset == 0 && depth == 0
    {
      content, this.strtod, offset, depth := text + [NUL], strtod, 0, 0;
      new;
      assert forall i :: 0 <= i < |text| ==> text[i] in text;
    }

    /** buffer_skip_whitespace. */
    method SkipWhitespace()
      requires Valid()
      modifies this`offset
      ensures Valid() && offset == Skip(content, old(offset))
    {
      while offset < |content| && content[offset] <= ' '
        invariant offset <= |content|
        invariant AfterBlanks(content, offset) == AfterBlanks(content, old(offset))
        decreases |content| - offset
      {
        offset := offset + 1;
      }
      if offset == |content| {
        offset := offset - 1;
      }
    }

    /** parse_number. */
    method ParseNumber() returns (item: Option<Json>)
      requires Valid()
      modifies this`offset
      ensures match ParseNumberAt(content, old(offset), strtod)
        case Failed => item == None && Valid()
        case Parsed(v, o) => item == Some(v) && offset == o && Valid()
    {
      var token := CopyToken(63);
      var r := strtod(token);
      if r == None {
        return None;
      }
      TokenInside(content, offset, token);
      offset := offset + r.value.1;
      return Some(Number(r.value.0));
    }

    /** Copy the number into a temporary buffer with room for that many characters and a NUL. */
    method CopyToken(room: nat) returns (token: string)
      requires Valid()
      ensures token == NumberToken(content, offset, room)
    {
      token := "";
      var i := 0;
      ghost var whole := NumberToken(content, offset, room);
      ghost var rest := whole;
      assert "" + whole == whole;
      while i < room && offset + i < |content| && InNumber(content[offset + i])
        invariant i <= room && offset + i <= |content|
        invariant rest == NumberToken(content, offset + i, room - i) && whole == token + rest
      {
        rest := TokenStep(content, offset + i, room - i, rest);
        Shuffle(token, content[offset + i], rest);
        token := token + [content[offset + i]];
        i := i + 1;
      }
      assert rest == "" && token + "" == token;
    }

    /** The first scan of parse_string: the closing quote, and how many backslashes it passed. */
    method FindClosingQuote() returns (end: Option<nat>, skippedBytes: nat)
      requires Valid()
      ensures end == ClosingQuote(content, offset + 1)
      ensures end.Some? ==> end.value - (offset + 1) - skippedBytes == Units(content, offset + 1, end.value)
    {
      var inputEnd := offset + 1;
      skippedBytes := 0;
      ghost var close := ClosingQuote(content, offset + 1);
      while inputEnd < |content| && content[inputEnd] != '\"'
        invariant offset + 1 <= inputEnd <= |content|
        invariant close == ClosingQuote(content, inputEnd)
        invariant close.Some? ==> inputEnd - (offset + 1) - skippedBytes + Units(content, inputEnd, close.value)
                                  == Units(content, offset + 1, close.value)
      {
        if content[inputEnd] == '\\' {
          if inputEnd + 1 >= |content| {
            return None, 0;
          }
          skippedBytes := skippedBytes + 1;
          inputEnd := inputEnd + 1;
        }
        inputEnd := inputEnd + 1;
      }
      end := if inputEnd >= |content| then None else Some(inputEnd);
    }

    /** The second scan of parse_string, into a buffer that has room for what the first scan counted. */
    method Unescape(start: nat, inputEnd: nat, output: array<char>) returns (length: Option<nat>)
      requires start <= inputEnd < |content| && Units(content, start, inputEnd) < output.Length
      modifies output
      ensures match Decode(content, start, inputEnd)
        case None => length == None
        case Some(s) => length == Some(|s|) && |s| < output.Length && output[..|s|] == s
    {
      var input: nat, written: nat := start, 0;
      ghost var q: nat := start;
      assert output[..0] == "";
      PrependNothing(Decode(content, start, inputEnd));
      while input < inputEnd
        invariant start <= input && written <= output.Length && InStep(input, q)
        invariant written + Reserved(content, input, q, inputEnd) <= Units(content, start, inputEnd)
        invariant Decode(content, start, inputEnd) == Prepend(output[..written], Decode(content, input, inputEnd))
        decreases inputEnd - input
      {
        ghost var before := output[..written];
        if content[input] != '\\' {
          OneUse(content, input, q, inputEnd);
          q := input + 1;
          PrependTwice(before, [content[input]], Decode(content, input + 1, inputEnd));
          output[written] := content[input];
          assert output[..written + 1] == before + [content[input]];
          input, written := input + 1, written + 1;
        } else if content[input + 1] == 'u' {
          var bytes, sequenceLength := ReadAt(input, inputEnd, output, written, q);
          if sequenceLength == 0 {
            return None;
          }
          q := LiteralUse(content, input, q, inputEnd, sequenceLength / 2);
          assert output[..written + bytes] == before + output[written..written + bytes];
          PrependTwice(before, output[written..written + bytes], Decode(content, input + sequenceLength, inputEnd));
          input, written := input + sequenceLength, written + bytes;
        } else {
          var c := Unescaped(content[input + 1]);
          if c == None {
            return None;
          }
          TwoUse(content, input, q, inputEnd);
          q := TwoOn(content, input, q, inputEnd);
          PrependTwice(before, [c.value], Decode(content, input + 2, inputEnd));
          output[written] := c.value;
          assert output[..written + 1] == before + [c.value];
          input, written := input + 2, written + 1;
        }
      }
      assert output[..written] + "" == output[..written];
      return Some(written);
    }

    /** A \u literal inside the second scan: there is room for its bytes. */
    method ReadAt(input: nat, inputEnd: nat, output: array<char>, written: nat, ghost q: nat)
      returns (bytes: nat, sequenceLength: nat)
      requires input < inputEnd < |content| && InStep(input, q)
      requires written + Reserved(content, input, q, inputEnd) < output.Length
      modifies output
      ensures sequenceLength == 0 <==> Literal(content, input, inputEnd) == None
      ensures sequenceLength > 0 ==>
        && written + bytes <= output.Length && output[..written] == old(output[..written])
        && Literal(content, input, inputEnd) == Some((output[written..written + bytes], sequenceLength))
    {
      ghost var literal := Literal(content, input, inputEnd);
      if literal.Some? {
        ghost var q' := LiteralUse(content, input, q, inputEnd, literal.value.1 / 2);
      }
      bytes, sequenceLength := LiteralToUtf8(content, input, inputEnd, output, written);
    }

    /** parse_string. */
    method ParseString() returns (s: Option<string>)
      requires Valid()
      modifies this`offset
      ensures match ParseStringAt(content, old(offset))
        case Failed => s == None && Valid()
        case Parsed(v, o) => s == Some(v) && offset == o && Valid()
    {
      if content[offset] != '\"' {
        return None;
      }
      var inputEnd, skippedBytes := FindClosingQuote();
      if inputEnd == None {
        return None;
      }
      var allocationLength := inputEnd.value - offset - skippedBytes;
      var output := new char[allocationLength + 1];
      var length := Unescape(offset + 1, inputEnd.value, output);
      if length == None {
        return None;
      }
      output[length.value] := NUL;
      offset := inputEnd.value + 1;
      return Some(CString(output[..length.value]));
    }

    /** A method returned what a function says, and left the buffer where it says. */
    ghost predicate Outcome<T(!new)>(item: Option<T>, expected: Parsed<T>, d: nat)
      reads this
    {
      if expected.Failed? then item == None
      else item == Some(expected.value) && offset == expected.offset && depth == d
    }

    /** parse_value. */
    method ParseValue() returns (item: Option<Json>)
      requires Valid()
      modifies this`offset, this`depth
      ensures Valid()
      ensures Outcome(item, ParseValueAt(content, old(offset), old(depth), strtod), old(depth))
      decreases |content| - offset, 3
    {
      if At(content, offset, "null") {
        WordInside(content, offset, "null");
        offset := offset + 4;
        return Some(Null);
      }
      if At(content, offset, "false") {
        WordInside(content, offset, "false");
        offset := offset + 5;
        return Some(False);
      }
      if At(content, offset, "true") {
        WordInside(content, offset, "true");
        offset := offset + 4;
        return Some(True);
      }
      if content[offset] == '\"' {
        var s := ParseString();
        return if s == None then None else Some(String(s.value));
      }
      if content[offset] == '-' || '0' <= content[offset] <= '9' {
        item := ParseNumber();
      } else if content[offset] == '[' {
        item := ParseArray();
      } else if content[offset] == '{' {
        item := ParseObject();
      } else {
        item := None;
      }
    }

    /** parse_array. */
    method ParseArray() returns (item: Option<Json>)
      requires Valid() && content[offset] == '['
      modifies this`offset, this`depth
      ensures Valid()
      ensures Outcome(item, ParseArrayAt(content, old(offset), old(depth), strtod), old(depth))
      decreases |content| - offset, 2
    {
      if depth >= NESTING_LIMIT {
        return None;
      }
      depth := depth + 1;
      offset := offset + 1;
      SkipWhitespace();
      var items := Some([]);
      if content[offset] != ']' {
        offset := offset - 1;
        items := ParseElements();
      }
      if items == None || content[offset] != ']' {
        return None;
      }
      depth := depth - 1;
      offset := offset + 1;
      return Some(Array(items.value));
    }

    /** One turn of the do loop of parse_array. */
    method ParseElement() returns (item: Option<Json>)
      requires Valid() && offset + 1 < |content|
      modifies this`offset, this`depth
      ensures Valid()
      ensures Outcome(item, ParseItem(content, old(offset), old(depth), strtod), old(depth))
      decreases |content| - offset, 0
    {
      offset := offset + 1;
      SkipWhitespace();
      item := ParseValue();
      if item.Some? {
        SkipWhitespace();
      }
    }

    /** The do loop of parse_array. */
    method ParseElements() returns (items: Option<seq<Json>>)
      requires Valid() && offset + 1 < |content|
      modifies this`offset, this`depth
      ensures Valid()
      ensures Outcome(items, ParseItems(content, old(offset), old(depth), strtod), old(depth))
      decreases |content| - offset, 1
    {
      var parsed, more := [], true;
      ghost var d, all := depth, ParseItems(content, offset, depth, strtod);
      JoinNothing(all);
      while more
        invariant Valid() && depth == d && old(offset) <= offset
        invariant more ==> offset + 1 < |content|
        invariant all == Join(parsed, if more then ParseItems(content, offset, d, strtod) else Parsed([], offset))
        decreases |content| - offset, more
      {
        ItemsUnfold(content, offset, d, strtod);
        var item := ParseElement();
        if item == None {
          return None;
        }
        more := content[offset] == ',';
        JoinStep(parsed, item.value, if more then ParseItems(content, offset, d, strtod) else Parsed([], offset));
        parsed := parsed + [item.value];
      }
      assert parsed + [] == parsed;
      return Some(parsed);
    }

    /** parse_object. */
    method ParseObject() returns (item: Option<Json>)
      requires Valid() && content[offset] == '{'
      modifies this`offset, this`depth
      ensures Valid()
      ensures Outcome(item, ParseObjectAt(content, old(offset), old(depth), strtod), old(depth))
      decreases |content| - offset, 2
    {
      if depth >= NESTING_LIMIT {
        return None;
      }
      depth := depth + 1;
      offset := offset + 1;
      SkipWhitespace();
      var members := Some([]);
      if content[offset] != '}' {
        offset := offset - 1;
        members := ParsePairs();
      }
      if members == None || content[offset] != '}' {
        return None;
      }
      depth := depth - 1;
      offset := offset + 1;
      return Some(Object(members.value));
    }

    /** One turn of the do loop of parse_object. */
    method ParsePair() returns (m: Option<Member<Json>>)
      requires Valid() && offset + 1 < |content|
      modifies this`offset, this`depth
      ensures Valid()
      ensures Outcome(m, ParseMember(content, old(offset), old(depth), strtod), old(depth))
      decreases |content| - offset, 0
    {
      ghost var o, d := offset, depth;
      var name := ParseNameColon();
      if name == None {
        NoName(content, o, d, strtod);
        return None;
      }
      ghost var colon := offset;
      offset := offset + 1;
      SkipWhitespace();
      var value := ParseValue();
      ghost var v := ParseValueAt(content, Skip(content, colon + 1), d, strtod);
      NameAndValue(content, o, d, strtod, name.value, colon, v);
      if value == None {
        return None;
      }
      SkipWhitespace();
      return Some(Member(name.value, value.value));
    }

    /** The name of a member, up to its colon. */
    method ParseNameColon() returns (name: Option<string>)
      requires Valid() && offset + 1 < |content|
      modifies this`offset
      ensures Valid()
      ensures Outcome(name, ParseName(content, old(offset)), depth)
    {
      offset := offset + 1;
      SkipWhitespace();
      name := ParseString();
      if name == None {
        return;
      }
      SkipWhitespace();
      if content[offset] != ':' {
        return None;
      }
    }

    /** The do loop of parse_object. */
    method ParsePairs() returns (members: Option<seq<Member<Json>>>)
      requires Valid() && offset + 1 < |content|
      modifies this`offset, this`depth
      ensures Valid()
      ensures Outcome(members, ParseMembers(content, old(offset), old(depth), strtod), old(depth))
      decreases |content| - offset, 1
    {
      var parsed, more := [], true;
      ghost var d, all := depth, ParseMembers(content, offset, depth, strtod);
      JoinNothing(all);
      while more
        invariant Valid() && depth == d && old(offset) <= offset
        invariant more ==> offset + 1 < |content|
        invariant all == Join(parsed, if more then ParseMembers(content, offset, d, strtod) else Parsed([], offset))
        decreases |content| - offset, more
      {
        MembersUnfold(content, offset, d, strtod);
        var m := ParsePair();
        if m == None {
          return None;
        }
        more := content[offset] == ',';
        JoinStep(parsed, m.value, if more then ParseMembers(content, offset, d, strtod) else Parsed([], offset));
        parsed := parsed + [m.value];
      }
      assert parsed + [] == parsed;
      return Some(parsed);
    }

    /** cJSON_ParseWithOpts: behind a byte order mark, one value; then, if required, nothing but white space. */
    method Parse(requireNullTerminated: bool) returns (item: Option<Json>)
      requires Valid() && offset == 0 && depth == 0
      modifies this`offset, this`depth
      ensures item == ParseText(content[..|content| - 1], strtod, requireNullTerminated)
    {
      assert content[..|content| - 1] + [NUL] == content;
      if |content| > 4 && At(content, 0, ByteOrderMark) {
        offset := 3;
      }
      SkipWhitespace();
      item := ParseValue();
      if item.Some? && requireNullTerminated {
        SkipWhitespace();
        if content[offset] != NUL {
          return None;
        }
      }
    }
  }

  lemma JoinNothing<T>(rest: Parsed<seq<T>>)
    ensures Join([], rest) == rest
  {
    if rest.Parsed? {
      assert [] + rest.value == rest.value;
    }
  }

  lemma JoinStep<T>(front: seq<T>, x: T, rest: Parsed<seq<T>>)
    ensures Join(front + [x], rest) == Join(front, Join([x], rest))
  {
    if rest.Parsed? {
      assert front + [x] + rest.value == front + ([x] + rest.value);
    }
  }

  lemma PrependNothing(b: Option<string>)
    ensures Prepend("", b) == b
  {
    if b.Some? {
      assert "" + b.value == b.value;
    }
  }

  lemma PrependTwice(a: string, b: string, c: Option<string>)
    ensures Prepend(a, Prepend(b, c)) == Prepend(a + b, c)
  {
    if c.Some? {
      assert a + (b + c.value) == a + b + c.value;
    }
  }
}
