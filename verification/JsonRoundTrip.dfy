/** Parsing printed text gives the tree back, formatted or not, exactly up to the nesting limit: printed text is JSON text. */
module JsonRoundTrip {
  import opened CStrings
  import opened JsonTrees
  import opened JsonText
  import opened JsonParse
  import opened JsonSpelling
  import opened JsonGrammar

  /** parse_string undoes print_string_ptr on every C string. */
  lemma StringBack(c: string, o: nat, s: string)
    requires Terminated(c) && At(c, o, Quote(s)) && NUL !in s
    ensures ParseStringAt(c, o) == Parsed(s, o + |Quote(s)|)
  {
    var ps := EscapeSpelled(s);
    EverySpelling(ps, c, o);
  }

  // ---------- numbers ----------

  /** strtod gives the number back that an integer numeral was printed for. */
  ghost predicate ReadsIntegers(strtod: Strtod) {
    forall n :: -NUMBER_LIMIT < n < NUMBER_LIMIT ==> strtod(Numeral(n)) == Some((n, |Numeral(n)|))
  }

  function Pow10(k: nat): nat {
    if k == 0 then 1 else 10 * Pow10(k - 1)
  }

  lemma {:induction false} DecimalLength(n: nat, k: nat)
    requires n < Pow10(k) && k > 0
    ensures |Decimal(n)| <= k
    decreases k
  {
    if n >= 10 {
      DecimalLength(n / 10, k - 1);
    }
  }

  lemma NumeralShape(n: int)
    requires -NUMBER_LIMIT < n < NUMBER_LIMIT
    ensures |Numeral(n)| <= 63 && forall i :: 0 <= i < |Numeral(n)| ==> InNumber(Numeral(n)[i])
    ensures Numeral(n)[0] == '-' || IsDigit(Numeral(n)[0])
  {
    var m := if n < 0 then -n else n;
    assert Pow10(3) == 1000 && Pow10(6) == 1000 * Pow10(3) && Pow10(9) == 1000 * Pow10(6);
    assert Pow10(12) == 1000 * Pow10(9) && Pow10(15) == 1000 * Pow10(12);
    DecimalLength(m, 15);
    forall i | 0 <= i < |Decimal(m)| ensures InNumber(Decimal(m)[i]) {
      assert Decimal(m)[i] in Decimal(m);
    }
  }

  /** A printed number is a decimal numeral of its value, without a leading zero. */
  lemma NumeralDenotes(n: int)
    ensures var digits := if n < 0 then Numeral(n)[1..] else Numeral(n);
      && (n < 0 ==> Numeral(n)[0] == '-') && digits != "" && (digits[0] == '0' ==> digits == "0")
      && (forall i :: 0 <= i < |digits| ==> '0' <= digits[i] <= '9')
      && DigitsValue(0, digits) == if n < 0 then -n else n
  {
    var m := if n < 0 then -n else n;
    DecimalValue(m);
    assert n < 0 ==> Numeral(n)[1..] == Decimal(m);
    forall i | 0 <= i < |Decimal(m)| ensures '0' <= Decimal(m)[i] <= '9' {
      assert Decimal(m)[i] in Decimal(m);
    }
  }

  function DigitCount(t: string): (k: nat)
    ensures k <= |t|
  {
    if t != "" && IsDigit(t[0]) then 1 + DigitCount(t[1..]) else 0
  }

  /** One strtod among those the theorems speak of: it reads the digits of an integer. */
  function ReadInteger(t: string): Option<(int, nat)> {
    if t != "" && t[0] == '-' then
      var k := DigitCount(t[1..]);
      if k == 0 then None else Some((-DigitsValue(0, t[1..][..k]), k + 1))
    else
      var k := DigitCount(t);
      if k == 0 then None else Some((DigitsValue(0, t[..k]), k))
  }

  lemma {:induction false} AllDigits(t: string)
    requires forall i :: 0 <= i < |t| ==> '0' <= t[i] <= '9'
    ensures DigitCount(t) == |t|
    decreases |t|
  {
    if t != "" {
      AllDigits(t[1..]);
    }
  }

  lemma IntegersAreRead()
    ensures Reads(ReadInteger) && ReadsIntegers(ReadInteger)
  {
    forall n | -NUMBER_LIMIT < n < NUMBER_LIMIT ensures ReadInteger(Numeral(n)) == Some((n, |Numeral(n)|)) {
      var digits := if n < 0 then Numeral(n)[1..] else Numeral(n);
      NumeralDenotes(n);
      AllDigits(digits);
      assert digits[..|digits|] == digits;
    }
  }

  lemma NumeralNumerical(n: int, strtod: Strtod)
    requires -NUMBER_LIMIT < n < NUMBER_LIMIT && ReadsIntegers(strtod)
    ensures Numerical(Numeral(n), n, strtod)
  {
    NumeralShape(n);
  }

  // ---------- printed text is JSON text ----------

  predicate Good(j: Json) {
    Printable(j) && !HasInvalid(j)
  }

  predicate GoodItems(items: seq<Json>) {
    forall i :: 0 <= i < |items| ==> Good(items[i])
  }

  predicate GoodMembers(members: seq<Member<Json>>) {
    forall i :: 0 <= i < |members| ==> NUL !in members[i].key && Good(members[i].value)
  }

  lemma GoodParts(j: Json)
    requires Good(j)
    ensures j.Array? ==> GoodItems(j.items)
    ensures j.Object? ==> GoodMembers(j.members)
  {
    match j
    case Array(items) => assert forall i :: 0 <= i < |items| ==> items[i] in items;
    case Object(members) => assert forall i :: 0 <= i < |members| ==> members[i] in members;
    case _ =>
  }

  /** The text of a tree, with the white space the printer puts into it. */
  lemma {:induction false} Printed(j: Json, format: bool, depth: nat, strtod: Strtod) returns (x: Syntax)
    requires Good(j) && ReadsIntegers(strtod)
    ensures WellFormed(x, strtod) && Write(x) == Render(j, format, depth) && Tree(x, strtod) == j
    decreases j, 0
  {
    match j
    case Number(n) =>
      NumeralNumerical(n, strtod);
      x := Numeric(Numeral(n), n);
    case String(s) =>
      var ps := EscapeSpelled(s);
      x := Text(ps);
    case Array(items) =>
      GoodParts(j);
      x := PrintedArray(items, format, depth, strtod);
    case Object(members) =>
      GoodParts(j);
      x := PrintedObject(members, format, depth, strtod);
    case _ => x := Word(j);
  }

  lemma {:induction false} PrintedArray(items: seq<Json>, format: bool, depth: nat, strtod: Strtod) returns (x: Syntax)
    requires GoodItems(items) && ReadsIntegers(strtod)
    ensures WellFormed(x, strtod) && Write(x) == Render(Array(items), format, depth) && Tree(x, strtod) == Array(items)
    decreases items, 2
  {
    var elements := PrintedItems(items, format, depth + 1, "", strtod);
    assert "" + RenderItems(items, format, depth + 1) == RenderItems(items, format, depth + 1);
    assert "" + WriteElements(elements) == WriteElements(elements);
    x := List("", elements);
    ListParts("", elements, strtod);
  }

  /** The elements, the first one behind `lead`. */
  lemma {:induction false} PrintedItems(items: seq<Json>, format: bool, depth: nat, lead: string, strtod: Strtod) returns (elements: seq<Element>)
    requires GoodItems(items) && ReadsIntegers(strtod) && Blank(lead)
    ensures AllElements(elements, strtod) && Trees(elements, strtod) == items
    ensures WriteElements(elements) == if items == [] then "" else lead + RenderItems(items, format, depth)
    decreases items, 1
  {
    if items == [] {
      return [];
    }
    var value := Printed(items[0], format, depth, strtod);
    var rest := PrintedItems(items[1..], format, depth, If(format, " "), strtod);
    var e := Element(lead, value, "");
    elements := AddElement(e, rest, strtod);
    ElementText(items, format, depth, lead, Write(value), WriteElements(rest));
    assert items == [items[0]] + items[1..];
  }

  lemma AddElement(e: Element, rest: seq<Element>, strtod: Strtod) returns (elements: seq<Element>)
    requires GoodElement(e, strtod) && AllElements(rest, strtod)
    ensures elements == [e] + rest && AllElements(elements, strtod) && Trees(elements, strtod) == [Tree(e.value, strtod)] + Trees(rest, strtod)
    ensures WriteElements(elements) == e.before + Write(e.value) + e.after + Separator(rest != []) + WriteElements(rest)
  {
    elements := [e] + rest;
    assert elements[1..] == rest;
  }

  lemma ElementText(items: seq<Json>, format: bool, depth: nat, lead: string, value: string, rest: string)
    requires items != [] && value == Render(items[0], format, depth)
    requires rest == if items[1..] == [] then "" else If(format, " ") + RenderItems(items[1..], format, depth)
    ensures lead + value + "" + Separator(items[1..] != []) + rest == lead + RenderItems(items, format, depth)
  {
    if items[1..] == [] {
      assert |items| == 1 && RenderItems(items[1..], format, depth) == "";
    } else {
      var others := RenderItems(items[1..], format, depth);
      assert Comma(format, true) == "," + If(format, " ");
      ElementMore(lead, value, If(format, " "), others);
    }
  }

  lemma ElementMore(lead: string, value: string, blank: string, others: string)
    ensures lead + value + "" + "," + (blank + others) == lead + (value + ("," + blank) + others)
  {
  }

  lemma {:induction false} PrintedObject(members: seq<Member<Json>>, format: bool, depth: nat, strtod: Strtod) returns (x: Syntax)
    requires GoodMembers(members) && ReadsIntegers(strtod)
    ensures WellFormed(x, strtod) && Write(x) == Render(Object(members), format, depth) && Tree(x, strtod) == Object(members)
    decreases members, 3
  {
    var tail := If(format, Tabs(depth));
    var fields := PrintedMembers(members, format, depth + 1, "", tail, strtod);
    var blank := If(format, ['\n']) + if members == [] then tail else "";
    x := Record(blank, fields);
    RecordParts(blank, fields, strtod);
    ObjectText(members, format, depth, blank, WriteFields(fields));
  }

  lemma ObjectText(members: seq<Member<Json>>, format: bool, depth: nat, blank: string, inner: string)
    requires blank == If(format, ['\n']) + if members == [] then If(format, Tabs(depth)) else ""
    requires inner == if members == [] then "" else "" + RenderMembers(members, format, depth + 1) + If(format, Tabs(depth))
    ensures ['{'] + (blank + inner) + ['}'] == Render(Object(members), format, depth)
  {
    var open, tail, all := If(format, ['\n']), If(format, Tabs(depth)), RenderMembers(members, format, depth + 1);
    ObjectIs(members, format, depth, open, all, tail);
    if members == [] {
      EmptyIs(open, tail);
    } else {
      FilledIs(open, all, tail);
    }
  }

  lemma ObjectIs(members: seq<Member<Json>>, format: bool, depth: nat, open: string, all: string, tail: string)
    requires open == If(format, ['\n']) && tail == If(format, Tabs(depth)) && all == RenderMembers(members, format, depth + 1)
    ensures Render(Object(members), format, depth) == (['{'] + open) + all + (tail + ['}'])
    ensures members == [] ==> all == ""
  {
    assert OpenText(format) == ['{'] + open;
  }

  lemma EmptyIs(open: string, tail: string)
    ensures ['{'] + ((open + tail) + "") + ['}'] == (['{'] + open) + "" + (tail + ['}'])
  {
  }

  lemma FilledIs(open: string, all: string, tail: string)
    ensures ['{'] + ((open + "") + ("" + all + tail)) + ['}'] == (['{'] + open) + all + (tail + ['}'])
  {
  }

  /** The members, the first one behind `lead`, and `tail` behind the last one. */
  lemma {:induction false} PrintedMembers(members: seq<Member<Json>>, format: bool, depth: nat, lead: string, tail: string, strtod: Strtod)
    returns (fields: seq<Field>)
    requires GoodMembers(members) && ReadsIntegers(strtod) && Blank(lead) && Blank(tail)
    ensures AllFields(fields, strtod) && Members(fields, strtod) == members
    ensures WriteFields(fields) == if members == [] then "" else lead + RenderMembers(members, format, depth) + tail
    decreases members, 2
  {
    if members == [] {
      return [];
    }
    var m := members[0];
    var value := Printed(m.value, format, depth, strtod);
    var rest := PrintedMembers(members[1..], format, depth, If(format, ['\n']), tail, strtod);
    fields := AddPrinted(members, format, depth, lead, tail, strtod, value, rest);
  }

  lemma AddPrinted(members: seq<Member<Json>>, format: bool, depth: nat, lead: string, tail: string, strtod: Strtod, value: Syntax, rest: seq<Field>)
    returns (fields: seq<Field>)
    requires members != [] && NUL !in members[0].key && Blank(lead) && Blank(tail)
    requires WellFormed(value, strtod) && Write(value) == Render(members[0].value, format, depth) && Tree(value, strtod) == members[0].value
    requires AllFields(rest, strtod) && Members(rest, strtod) == members[1..]
    requires WriteFields(rest) == if members[1..] == [] then "" else If(format, ['\n']) + RenderMembers(members[1..], format, depth) + tail
    ensures AllFields(fields, strtod) && Members(fields, strtod) == members
    ensures WriteFields(fields) == lead + RenderMembers(members, format, depth) + tail
  {
    var f := PrintedField(members, format, depth, lead, tail, value, strtod);
    fields := AddField(f, rest, strtod);
    MembersOn(members, Members(fields, strtod), Members(rest, strtod));
    assert rest != [] <==> members[1..] != [];
    FieldText(members, format, depth, lead, tail, f, WriteFields(rest));
  }

  lemma MembersOn(members: seq<Member<Json>>, all: seq<Member<Json>>, rest: seq<Member<Json>>)
    requires members != [] && rest == members[1..] && all == [members[0]] + rest
    ensures all == members
  {
  }

  lemma PrintedField(members: seq<Member<Json>>, format: bool, depth: nat, lead: string, tail: string, value: Syntax, strtod: Strtod)
    returns (f: Field)
    requires members != [] && NUL !in members[0].key && Blank(lead) && Blank(tail) && WellFormed(value, strtod)
    ensures GoodField(f, strtod) && Value(f.name) == members[0].key && Spell(f.name) == Escape(members[0].key)
    ensures f.before == lead + If(format, Tabs(depth)) && f.gap == "" && f.middle == If(format, ['\t']) && f.value == value
    ensures f.after == if |members| > 1 then "" else If(format, ['\n']) + tail
  {
    var name := EscapeSpelled(members[0].key);
    f := Field(lead + If(format, Tabs(depth)), name, "", If(format, ['\t']), value, if |members| > 1 then "" else If(format, ['\n']) + tail);
  }

  lemma AddField(f: Field, rest: seq<Field>, strtod: Strtod) returns (fields: seq<Field>)
    requires GoodField(f, strtod) && AllFields(rest, strtod)
    ensures fields == [f] + rest && AllFields(fields, strtod)
    ensures Members(fields, strtod) == [Member(Value(f.name), Tree(f.value, strtod))] + Members(rest, strtod)
    ensures WriteFields(fields) == WriteField(f) + Separator(rest != []) + WriteFields(rest)
  {
    fields := [f] + rest;
    assert fields[1..] == rest;
  }

  lemma FieldText(members: seq<Member<Json>>, format: bool, depth: nat, lead: string, tail: string, f: Field, rest: string)
    requires members != [] && f.before == lead + If(format, Tabs(depth)) && Spell(f.name) == Escape(members[0].key)
    requires f.gap == "" && f.middle == If(format, ['\t']) && Write(f.value) == Render(members[0].value, format, depth)
    requires f.after == if |members| > 1 then "" else If(format, ['\n']) + tail
    requires rest == if members[1..] == [] then "" else If(format, ['\n']) + RenderMembers(members[1..], format, depth) + tail
    ensures WriteField(f) + Separator(members[1..] != []) + rest == lead + RenderMembers(members, format, depth) + tail
  {
    var tabs, name, value := If(format, Tabs(depth)), Quote(members[0].key), Write(f.value);
    var others, line, more := RenderMembers(members[1..], format, depth), If(format, ['\n']), |members| > 1;
    assert Quoted(f.name) == name;
    assert ColonText(format) == [':'] + f.middle;
    assert RenderMembers(members, format, depth) == (tabs + name + ([':'] + f.middle) + value + TailText(more, format)) + others;
    if more {
      FieldMore(lead, tabs, name, f.middle, value, line, others, tail);
    } else {
      assert others == "";
      FieldLast(lead, tabs, name, f.middle, value, line, tail);
    }
  }

  lemma FieldMore(lead: string, tabs: string, name: string, middle: string, value: string, line: string, others: string, tail: string)
    ensures (lead + tabs) + name + "" + [':'] + middle + value + "" + "," + (line + others + tail) ==
            lead + ((tabs + name + ([':'] + middle) + value + ("," + line)) + others) + tail
  {
  }

  lemma FieldLast(lead: string, tabs: string, name: string, middle: string, value: string, line: string, tail: string)
    ensures (lead + tabs) + name + "" + [':'] + middle + value + (line + tail) + "" + "" ==
            lead + ((tabs + name + ([':'] + middle) + value + ("" + line)) + "") + tail
  {
  }

  /** cJSON_Parse undoes cJSON_Print and cJSON_PrintUnformatted, members in order, exactly for trees that are nested at
      most CJSON_NESTING_LIMIT deep; deeper ones it refuses. */
  lemma ParseUndoesPrint(j: Json, strtod: Strtod, format: bool, requireNullTerminated: bool)
    requires Good(j) && Reads(strtod) && ReadsIntegers(strtod)
    ensures NUL !in Render(j, format, 0)
    ensures ParseText(Render(j, format, 0), strtod, requireNullTerminated) ==
            if Nesting(j) <= 1000 then Some(j) else None
  {
    var x := Printed(j, format, 0, strtod);
    EveryTextParses(x, false, "", "", strtod, requireNullTerminated);
    assert "" + "" + Render(j, format, 0) + "" == Render(j, format, 0);
  }
}
