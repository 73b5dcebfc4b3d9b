/**
 How printed text is laid out. A reference that knows nothing of trees reads the unformatted text character by character,
 keeping the brackets that are open, and puts in the line breaks, tabs and blanks; the formatted text is what it makes of the
 unformatted one.
 */
module JsonLayout {
  import opened CStrings
  import opened JsonTrees
  import opened JsonText

  // ---------- the reference ----------

  /** Outside strings, inside one, or inside one behind a backslash. */
  datatype Mode = Outside | Inside | Escaped

  function ModeBehind(x: char, mode: Mode): Mode {
    match mode
    case Outside => if x == '\"' then Inside else Outside
    case Inside => if x == '\"' then Outside else if x == '\\' then Escaped else Inside
    case Escaped => Inside
  }

  function ModeAfter(t: string, mode: Mode): Mode {
    if t == "" then mode else ModeAfter(t[1..], ModeBehind(t[0], mode))
  }

  /** The brackets that are open, the innermost one last, and whether it stands right in front. */
  datatype Place = Place(open: seq<char>, bare: bool, mode: Mode)
  {
    predicate InObject() {
      open != [] && open[|open| - 1] == '{'
    }
  }

  const START: Place := Place([], false, Outside)

  function Behind(x: char, p: Place): Place {
    var mode := ModeBehind(x, p.mode);
    if p.mode != Outside then p.(mode := mode)
    else if x == '{' || x == '[' then Place(p.open + [x], true, mode)
    else if x == '}' || x == ']' then Place(if p.open == [] then [] else p.open[..|p.open| - 1], false, mode)
    else Place(p.open, false, mode)
  }

  /** The line that begins: one tab for every open bracket, and one less in front of a closing brace. */
  function Margin(x: char, p: Place): string {
    if x == '}' then seq(if p.open == [] then 0 else |p.open| - 1, _ => '\t') else seq(|p.open|, _ => '\t')
  }

  /** What stands in the formatted text for a character. */
  function Lay(x: char, p: Place): string {
    if p.mode != Outside then [x]
    else
      var front :=
        if x == '}' then (if p.bare then "" else "\n") + Margin(x, p)
        else if p.bare && p.InObject() then Margin(x, p)
        else "";
      var back :=
        if x == '{' then "\n"
        else if x == ':' then "\t"
        else if x == ',' then if p.InObject() then "\n" + Margin(x, p) else " "
        else "";
      front + [x] + back
  }

  function Indented(t: string, p: Place): string {
    if t == "" then "" else Lay(t[0], p) + Indented(t[1..], Behind(t[0], p))
  }

  function After(t: string, p: Place): Place {
    if t == "" then p else After(t[1..], Behind(t[0], p))
  }

  function Kept(x: char, mode: Mode): string {
    if mode == Outside && (x == ' ' || x == '\t' || x == '\n') then "" else [x]
  }

  /** The text without the blanks, tabs and line breaks outside its strings. */
  function Squeezed(t: string, mode: Mode): string {
    if t == "" then "" else Kept(t[0], mode) + Squeezed(t[1..], ModeBehind(t[0], mode))
  }

  // ---------- joined texts ----------

  lemma {:induction false} IndentedJoin(a: string, b: string, p: Place)
    ensures Indented(a + b, p) == Indented(a, p) + Indented(b, After(a, p))
    ensures After(a + b, p) == After(b, After(a, p))
    decreases |a|
  {
    if a == "" {
      assert a + b == b;
    } else {
      assert (a + b)[1..] == a[1..] + b;
      IndentedJoin(a[1..], b, Behind(a[0], p));
    }
  }

  lemma {:induction false} SqueezedJoin(a: string, b: string, mode: Mode)
    ensures Squeezed(a + b, mode) == Squeezed(a, mode) + Squeezed(b, ModeAfter(a, mode))
    ensures ModeAfter(a + b, mode) == ModeAfter(b, ModeAfter(a, mode))
    decreases |a|
  {
    if a == "" {
      assert a + b == b;
    } else {
      assert (a + b)[1..] == a[1..] + b;
      var next := ModeBehind(a[0], mode);
      SqueezedJoin(a[1..], b, next);
      SqueezedFirst(a, mode);
      SqueezedFirst(a + b, mode);
      Assoc(Kept(a[0], mode), Squeezed(a[1..], next), Squeezed(b, ModeAfter(a[1..], next)));
    }
  }

  lemma SqueezedFirst(t: string, mode: Mode)
    requires t != ""
    ensures Squeezed(t, mode) == Kept(t[0], mode) + Squeezed(t[1..], ModeBehind(t[0], mode))
    ensures ModeAfter(t, mode) == ModeAfter(t[1..], ModeBehind(t[0], mode))
  {
  }

  lemma Assoc(a: string, b: string, c: string)
    ensures a + (b + c) == a + b + c
  {
  }

  // ---------- strings ----------

  /** Inside a string everything stays as it is, and the string goes on. */
  lemma {:induction false} EscapeLaid(s: string, p: Place)
    requires p.mode == Inside
    ensures Indented(Escape(s), p) == Escape(s) && After(Escape(s), p) == p
    decreases |s|
  {
    if s != "" {
      EscapedChar(s[0], p);
      EscapeLaid(s[1..], p);
      IndentedJoin(EscapeChar(s[0]), Escape(s[1..]), p);
    }
  }

  lemma {:induction false} CopiedInside(t: string, p: Place)
    requires p.mode == Inside && forall i :: 0 <= i < |t| ==> t[i] != '\"' && t[i] != '\\'
    ensures Indented(t, p) == t && After(t, p) == p
    decreases |t|
  {
    if t != "" {
      CopiedInside(t[1..], p);
      assert t == [t[0]] + t[1..];
    }
  }

  lemma EscapedChar(x: char, p: Place)
    requires p.mode == Inside
    ensures Indented(EscapeChar(x), p) == EscapeChar(x) && After(EscapeChar(x), p) == p
  {
    var code := EscapeChar(x);
    if |code| == 1 {
      CopiedInside(code, p);
    } else {
      assert code[0] == '\\' && code == code[..2] + code[2..];
      HexDigitPlain(if |code| == 6 then x as int / 16 else 0);
      HexDigitPlain(if |code| == 6 then x as int % 16 else 0);
      CopiedInside(code[2..], p);
      PairInside(code[1], p);
      assert code[..2] == ['\\', code[1]];
      IndentedJoin(code[..2], code[2..], p);
    }
  }

  lemma HexDigitPlain(d: nat)
    requires d < 16
    ensures HexDigit(d) != '\"' && HexDigit(d) != '\\'
  {
  }

  lemma PairInside(x: char, p: Place)
    requires p.mode == Inside
    ensures Indented(['\\', x], p) == ['\\', x] && After(['\\', x], p) == p
  {
    assert ['\\', x] == ['\\'] + [x];
    CharLaid('\\', p);
    CharLaid(x, p.(mode := Escaped));
    IndentedJoin(['\\'], [x], p);
  }

  /** The tabs a name gets right behind the opening brace. */
  function Lead(p: Place): string {
    if p.bare && p.InObject() then Tabs(|p.open|) else ""
  }

  lemma QuoteLaid(s: string, p: Place)
    requires p.mode == Outside
    ensures Indented(Quote(s), p) == Lead(p) + Quote(s) && After(Quote(s), p) == p.(bare := false)
  {
    var q := Place(p.open, false, Inside);
    var name := Escape(s);
    EscapeLaid(s, q);
    CharLaid('\"', p);
    CharLaid('\"', q);
    IndentedJoin(['\"'], name, p);
    IndentedJoin(['\"'] + name, ['\"'], p);
    OpeningQuote(p);
    QuoteText(Lead(p), name);
  }

  lemma OpeningQuote(p: Place)
    ensures p.mode == Outside ==> Lay('\"', p) == Lead(p) + ['\"']
  {
    if p.mode == Outside {
      assert Margin('\"', p) == Tabs(|p.open|);
      assert Lead(p) + ['\"'] + "" == Lead(p) + ['\"'];
    }
  }

  lemma QuoteText(lead: string, name: string)
    ensures lead + ['\"'] + name + ['\"'] == lead + (['\"'] + name + ['\"'])
  {
  }

  lemma CharLaid(x: char, p: Place)
    ensures Indented([x], p) == Lay(x, p) && After([x], p) == Behind(x, p)
  {
    assert [x][1..] == "" && Lay(x, p) + "" == Lay(x, p);
  }

  // ---------- numbers and words ----------

  predicate PlainText(t: string) {
    t != "" && forall i :: 0 <= i < |t| ==> (t[i] == '-' || IsDigit(t[i]) || 'a' <= t[i] <= 'z')
  }

  /** A number or a word where a value may stand. */
  lemma {:induction false} PlainLaid(t: string, p: Place)
    requires PlainText(t) && p.mode == Outside && Lead(p) == ""
    ensures Indented(t, p) == t && After(t, p) == p.(bare := false)
    decreases |t|
  {
    var q := p.(bare := false);
    assert Lay(t[0], p) == "" + [t[0]] + "" by {
      assert |Tabs(|p.open|)| == |p.open|;
    }
    assert t == [t[0]] + t[1..];
    if |t| > 1 {
      PlainLaid(t[1..], q);
    }
  }

  lemma NumeralPlain(n: int)
    ensures PlainText(Numeral(n))
  {
    var m := if n < 0 then -n else n;
    forall i | 0 <= i < |Decimal(m)| ensures IsDigit(Decimal(m)[i]) {
      assert Decimal(m)[i] in Decimal(m);
    }
  }

  lemma AtomPlain(j: Json, format: bool, depth: nat)
    requires j.Null? || j.False? || j.True? || j.Number?
    ensures PlainText(Render(j, format, depth))
  {
    match j
    case Number(n) => NumeralPlain(n);
    case _ =>
  }

  // ---------- values ----------

  /** The text of a value is laid out as the printer does it, and leaves the brackets as they were. */
  lemma {:induction false} ValueLaid(j: Json, p: Place, depth: nat)
    requires !HasInvalid(j) && p.mode == Outside && |p.open| == depth && Lead(p) == ""
    ensures Indented(Render(j, false, depth), p) == Render(j, true, depth)
    ensures After(Render(j, false, depth), p) == p.(bare := false)
    decreases j, 0
  {
    match j
    case Array(items) =>
      assert forall x :: x in items ==> !HasInvalid(x);
      ArrayLaid(items, p, depth);
    case Object(members) =>
      assert forall m :: m in members ==> !HasInvalid(m.value);
      ObjectLaid(members, p, depth);
    case String(s) =>
      QuoteLaid(s, p);
      assert "" + Quote(s) == Quote(s);
    case _ =>
      AtomPlain(j, false, depth);
      PlainLaid(Render(j, false, depth), p);
  }

  /** An opening bracket, what is inside, and the closing one. */
  lemma BracketsLaid(open: char, inner: string, close: char, p: Place, q: Place, r: Place)
    requires p.mode == Outside && ((open == '[' && close == ']') || (open == '{' && close == '}'))
    requires q == Place(p.open + [open], true, Outside) && r == After(inner, q) && r.open == q.open && r.mode == Outside
    ensures Indented([open] + inner + [close], p) == Lay(open, p) + Indented(inner, q) + Lay(close, r)
    ensures After([open] + inner + [close], p) == p.(bare := false)
  {
    CharLaid(open, p);
    CharLaid(close, r);
    IndentedJoin([open], inner, p);
    IndentedJoin([open] + inner, [close], p);
    assert q.open[..|q.open| - 1] == p.open;
  }

  lemma {:induction false} ArrayLaid(items: seq<Json>, p: Place, depth: nat)
    requires (forall x :: x in items ==> !HasInvalid(x)) && p.mode == Outside && |p.open| == depth && Lead(p) == ""
    ensures Indented(Render(Array(items), false, depth), p) == Render(Array(items), true, depth)
    ensures After(Render(Array(items), false, depth), p) == p.(bare := false)
    decreases items, 2
  {
    var q := Place(p.open + ['['], true, Outside);
    ItemsLaid(items, q, depth + 1);
    var inner := RenderItems(items, false, depth + 1);
    BracketsLaid('[', inner, ']', p, q, After(inner, q));
    OpenLaid('[', p);
    SquareLaid(After(inner, q));
  }

  /** An opening bracket where a value may stand. */
  lemma OpenLaid(x: char, p: Place)
    requires p.mode == Outside && Lead(p) == "" && (x == '[' || x == '{')
    ensures Lay(x, p) == if x == '{' then "{\n" else "["
  {
    NoMargin(p);
    assert "" + [x] + "" == [x];
    assert "" + ['{'] + "\n" == "{\n";
  }

  lemma NoMargin(p: Place)
    requires Lead(p) == ""
    ensures !(p.bare && p.InObject())
  {
    assert |Tabs(|p.open|)| == |p.open|;
  }

  lemma SquareLaid(p: Place)
    requires p.mode == Outside && p.open != [] && p.open[|p.open| - 1] == '['
    ensures Lay(']', p) == "]" && Lay(',', p) == ", "
  {
    assert "" + [']'] + "" == "]" && "" + [','] + " " == ", ";
  }

  lemma {:induction false} ItemsLaid(items: seq<Json>, p: Place, depth: nat)
    requires (forall x :: x in items ==> !HasInvalid(x)) && p.mode == Outside && |p.open| == depth
    requires depth > 0 && p.open[depth - 1] == '['
    ensures Indented(RenderItems(items, false, depth), p) == RenderItems(items, true, depth)
    ensures After(RenderItems(items, false, depth), p) == if items == [] then p else p.(bare := false)
    decreases items, 1
  {
    if items != [] {
      var q, more := p.(bare := false), |items| > 1;
      var value, comma, rest := Render(items[0], false, depth), Comma(false, more), RenderItems(items[1..], false, depth);
      assert items[0] in items;
      ValueLaid(items[0], p, depth);
      CommaLaid(more, q);
      ItemsLaid(items[1..], q, depth);
      IndentedJoin(value, comma, p);
      IndentedJoin(value + comma, rest, p);
    }
  }

  lemma CommaLaid(more: bool, p: Place)
    requires p.mode == Outside && !p.bare && p.open != [] && p.open[|p.open| - 1] == '['
    ensures Indented(Comma(false, more), p) == Comma(true, more) && After(Comma(false, more), p) == p
  {
    if more {
      CharLaid(',', p);
      SquareLaid(p);
    }
  }

  lemma {:induction false} ObjectLaid(members: seq<Member<Json>>, p: Place, depth: nat)
    requires (forall m :: m in members ==> !HasInvalid(m.value)) && p.mode == Outside && |p.open| == depth && Lead(p) == ""
    ensures Indented(Render(Object(members), false, depth), p) == Render(Object(members), true, depth)
    ensures After(Render(Object(members), false, depth), p) == p.(bare := false)
    decreases members, 3
  {
    var q := Place(p.open + ['{'], true, Outside);
    var inner, all := RenderMembers(members, false, depth + 1), RenderMembers(members, true, depth + 1);
    var r := if members == [] then q else q.(bare := false);
    if members != [] {
      MembersLaid(members, q, depth + 1);
    }
    BracketsLaid('{', inner, '}', p, q, r);
    OpenLaid('{', p);
    BraceLaid(r, depth);
    ObjectText(Indented(inner, q), all, members == [], Tabs(depth));
    assert Render(Object(members), false, depth) == ['{'] + inner + ['}'] by {
      assert OpenText(false) == ['{'] && CloseText(false, depth) == "" + ['}'] == ['}'];
    }
    assert Render(Object(members), true, depth) == "{\n" + all + (Tabs(depth) + ['}']);
  }

  lemma BraceLaid(p: Place, depth: nat)
    requires p.mode == Outside && |p.open| == depth + 1
    ensures Lay('}', p) == (if p.bare then "" else "\n") + Tabs(depth) + "}"
  {
    assert Margin('}', p) == Tabs(depth);
    var front := (if p.bare then "" else "\n") + Tabs(depth);
    assert front + ['}'] + "" == front + "}";
  }

  lemma ObjectText(inner: string, all: string, empty: bool, tabs: string)
    requires if empty then inner == "" && all == "" else inner + "\n" == all
    ensures "{\n" + inner + ((if empty then "" else "\n") + tabs + "}") == "{\n" + all + (tabs + ['}'])
  {
    if !empty {
      assert "{\n" + inner + ("\n" + tabs + "}") == "{\n" + (inner + "\n") + (tabs + ['}']);
    }
  }

  /** The tabs that stand in front of a name already. */
  function Given(p: Place): string {
    if p.bare then "" else Tabs(|p.open|)
  }

  lemma {:induction false} MembersLaid(members: seq<Member<Json>>, p: Place, depth: nat)
    requires members != [] && (forall m :: m in members ==> !HasInvalid(m.value)) && p.mode == Outside && |p.open| == depth
    requires p.InObject()
    ensures Given(p) + Indented(RenderMembers(members, false, depth), p) + "\n" == RenderMembers(members, true, depth)
    ensures After(RenderMembers(members, false, depth), p) == p.(bare := false)
    decreases members, 2
  {
    var q, more := p.(bare := false), |members| > 1;
    var first, rest := RenderMember(members[0], more, false, depth), RenderMembers(members[1..], false, depth);
    assert members[0] in members;
    MemberLaid(members[0], more, p, depth);
    IndentedJoin(first, rest, p);
    if more {
      MembersLaid(members[1..], q, depth);
      MoreText(Given(p), Indented(first, p), Tabs(depth), Indented(rest, q), RenderMember(members[0], true, true, depth));
    } else {
      assert members[1..] == [] && rest == "";
      LastText(Given(p), Indented(first, p), RenderMember(members[0], false, true, depth));
    }
  }

  lemma MoreText(given: string, first: string, tabs: string, rest: string, member: string)
    requires given + first == member + tabs
    ensures given + (first + rest) + "\n" == member + (tabs + rest + "\n")
  {
    assert given + (first + rest) + "\n" == (given + first) + rest + "\n";
  }

  lemma LastText(given: string, first: string, member: string)
    requires given + first + "\n" == member
    ensures given + (first + "") + "\n" == member + ""
  {
    assert first + "" == first;
  }

  /** A member, up to the tabs of the next line. */
  lemma {:induction false} MemberLaid(m: Member<Json>, more: bool, p: Place, depth: nat)
    requires !HasInvalid(m.value) && p.mode == Outside && |p.open| == depth && p.InObject()
    ensures After(RenderMember(m, more, false, depth), p) == p.(bare := false)
    ensures Given(p) + Indented(RenderMember(m, more, false, depth), p) + (if more then "" else "\n") ==
            RenderMember(m, more, true, depth) + if more then Tabs(depth) else ""
    decreases m, 1
  {
    var q := p.(bare := false);
    var name, value, tail := Quote(m.key), Render(m.value, false, depth), If(more, ",");
    QuoteLaid(m.key, p);
    MarkLaid(q);
    CharLaid(':', q);
    ValueLaid(m.value, q, depth);
    TailLaid(more, q);
    IndentedJoin(name, [':'], p);
    IndentedJoin(name + [':'], value, p);
    IndentedJoin(name + [':'] + value, tail, p);
    MemberTexts(m, more, depth);
    MemberText(Given(p), Lead(p), name, Render(m.value, true, depth), Tabs(depth), more);
  }

  lemma MarkLaid(p: Place)
    requires p.mode == Outside && !p.bare
    ensures Lay(':', p) == ":\t"
  {
    assert "" + [':'] + "\t" == ":\t";
  }

  lemma TailLaid(more: bool, p: Place)
    requires p.mode == Outside && !p.bare && p.InObject()
    ensures Indented(If(more, ","), p) == if more then ",\n" + Tabs(|p.open|) else ""
    ensures After(If(more, ","), p) == p
  {
    if more {
      CharLaid(',', p);
      assert Margin(',', p) == Tabs(|p.open|);
      assert "" + [','] + ("\n" + Tabs(|p.open|)) == ",\n" + Tabs(|p.open|);
    }
  }

  lemma MemberTexts(m: Member<Json>, more: bool, depth: nat)
    ensures RenderMember(m, more, false, depth) == Quote(m.key) + [':'] + Render(m.value, false, depth) + If(more, ",")
    ensures RenderMember(m, more, true, depth) ==
            Tabs(depth) + Quote(m.key) + ":\t" + Render(m.value, true, depth) + (If(more, ",") + "\n")
  {
    assert KeyText(m.key, false, depth) == Quote(m.key) + [':'] by {
      assert "" + Quote(m.key) == Quote(m.key) && ColonText(false) == [':'];
    }
    assert TailText(more, false) == If(more, ",");
  }

  lemma MemberText(given: string, lead: string, name: string, value: string, tabs: string, more: bool)
    requires given + lead == tabs
    ensures given + (lead + name + ":\t" + value + (if more then ",\n" + tabs else "")) + (if more then "" else "\n") ==
            tabs + name + ":\t" + value + (If(more, ",") + "\n") + if more then tabs else ""
  {
    var body := name + ":\t" + value;
    assert given + (lead + body) == tabs + body;
    if more {
      assert If(more, ",") + "\n" == ",\n";
      assert given + (lead + name + ":\t" + value + (",\n" + tabs)) + "" == tabs + name + ":\t" + value + ",\n" + tabs;
    } else {
      assert given + (lead + name + ":\t" + value + "") + "\n" == tabs + name + ":\t" + value + ("" + "\n") + "";
    }
  }

  // ---------- without the blanks ----------

  predicate Blanks(s: string) {
    forall i :: 0 <= i < |s| ==> s[i] == ' ' || s[i] == '\t' || s[i] == '\n'
  }

  lemma {:induction false} BlanksSqueezed(s: string)
    requires Blanks(s)
    ensures Squeezed(s, Outside) == "" && ModeAfter(s, Outside) == Outside
  {
    if s != "" {
      BlanksSqueezed(s[1..]);
    }
  }

  lemma LaySqueezed(x: char, p: Place)
    ensures Squeezed(Lay(x, p), p.mode) == Squeezed([x], p.mode) && ModeAfter(Lay(x, p), p.mode) == ModeBehind(x, p.mode)
  {
    var front, back := LayParts(x, p);
    assert [x][1..] == "";
    if p.mode == Outside {
      BlanksSqueezed(front);
      SqueezedJoin(front, [x], p.mode);
      assert "" + Squeezed([x], p.mode) == Squeezed([x], p.mode);
    }
    if back != "" {
      BlanksSqueezed(back);
      SqueezedJoin(front + [x], back, p.mode);
      assert Squeezed([x], p.mode) + "" == Squeezed([x], p.mode);
    }
  }

  /** Blanks in front of a character and behind it. */
  lemma LayParts(x: char, p: Place) returns (front: string, back: string)
    ensures Lay(x, p) == if back == "" then if p.mode == Outside then front + [x] else [x] else front + [x] + back
    ensures Blanks(front) && Blanks(back) && (back != "" ==> p.mode == Outside && ModeBehind(x, p.mode) == Outside)
  {
    if p.mode != Outside {
      return "", "";
    }
    front :=
      if x == '}' then (if p.bare then "" else "\n") + Margin(x, p)
      else if p.bare && p.InObject() then Margin(x, p)
      else "";
    back :=
      if x == '{' then "\n"
      else if x == ':' then "\t"
      else if x == ',' then if p.InObject() then "\n" + Margin(x, p) else " "
      else "";
    assert front + [x] + "" == front + [x];
  }

  /** Laying a text out adds nothing but blanks outside strings. */
  lemma {:induction false} IndentedSqueezed(t: string, p: Place)
    ensures Squeezed(Indented(t, p), p.mode) == Squeezed(t, p.mode)
    decreases |t|
  {
    if t != "" {
      LaySqueezed(t[0], p);
      IndentedSqueezed(t[1..], Behind(t[0], p));
      SqueezedJoin(Lay(t[0], p), Indented(t[1..], Behind(t[0], p)), p.mode);
      assert t == [t[0]] + t[1..] && [t[0]][1..] == "";
      SqueezedJoin([t[0]], t[1..], p.mode);
    }
  }

  /** No blanks outside strings, and no string left open. */
  predicate Tight(t: string) {
    Squeezed(t, Outside) == t && ModeAfter(t, Outside) == Outside
  }

  lemma TightJoin(a: string, b: string)
    requires Tight(a) && Tight(b)
    ensures Tight(a + b)
  {
    SqueezedJoin(a, b, Outside);
  }

  lemma {:induction false} PlainTight(t: string)
    requires forall i :: 0 <= i < |t| ==> t[i] > ' ' && t[i] != '\"'
    ensures Tight(t)
    decreases |t|
  {
    if t != "" {
      PlainTight(t[1..]);
      assert t == [t[0]] + t[1..];
    }
  }

  lemma {:induction false} EscapeTight(s: string)
    ensures Squeezed(Escape(s), Inside) == Escape(s) && ModeAfter(Escape(s), Inside) == Inside
    decreases |s|
  {
    if s != "" {
      var code := EscapeChar(s[0]);
      CharTight(s[0], code);
      EscapeTight(s[1..]);
      SqueezedJoin(code, Escape(s[1..]), Inside);
    }
  }

  lemma CharTight(x: char, code: string)
    requires code == EscapeChar(x)
    ensures Squeezed(code, Inside) == code && ModeAfter(code, Inside) == Inside
  {
    if |code| == 1 {
      assert code[1..] == "" && [code[0]] + "" == code;
    } else {
      HexDigitPlain(if |code| == 6 then x as int / 16 else 0);
      HexDigitPlain(if |code| == 6 then x as int % 16 else 0);
      InsideTight(code[2..]);
      assert code == [code[0]] + ([code[1]] + code[2..]) && code[1..][1..] == code[2..];
    }
  }

  lemma {:induction false} InsideTight(t: string)
    requires forall i :: 0 <= i < |t| ==> t[i] != '\"' && t[i] != '\\'
    ensures Squeezed(t, Inside) == t && ModeAfter(t, Inside) == Inside
    decreases |t|
  {
    if t != "" {
      InsideTight(t[1..]);
      assert t == [t[0]] + t[1..];
    }
  }

  lemma QuoteTight(s: string)
    ensures Tight(Quote(s))
  {
    var name := Escape(s);
    EscapeTight(s);
    assert ['\"'][1..] == "" && ['\"'] + "" == ['\"'];
    SqueezedJoin(['\"'], name, Outside);
    SqueezedJoin(['\"'] + name, ['\"'], Outside);
  }

  lemma {:induction false} ValueTight(j: Json, depth: nat)
    requires !HasInvalid(j)
    ensures Tight(Render(j, false, depth))
    decreases j, 0
  {
    match j
    case Array(items) =>
      assert forall x :: x in items ==> !HasInvalid(x);
      ItemsTight(items, depth + 1);
      BracketsTight("[", RenderItems(items, false, depth + 1), "]");
    case Object(members) =>
      assert forall m :: m in members ==> !HasInvalid(m.value);
      MembersTight(members, depth + 1);
      assert CloseText(false, depth) == "}";
      BracketsTight("{", RenderMembers(members, false, depth + 1), "}");
    case String(s) => QuoteTight(s);
    case _ =>
      AtomPlain(j, false, depth);
      PlainTight(Render(j, false, depth));
  }

  lemma BracketsTight(open: string, inner: string, close: string)
    requires Tight(inner) && (open == "[" || open == "{") && (close == "]" || close == "}")
    ensures Tight(open + inner + close)
  {
    PlainTight(open);
    PlainTight(close);
    TightJoin(open, inner);
    TightJoin(open + inner, close);
  }

  lemma {:induction false} ItemsTight(items: seq<Json>, depth: nat)
    requires forall x :: x in items ==> !HasInvalid(x)
    ensures Tight(RenderItems(items, false, depth))
    decreases items, 1
  {
    if items != [] {
      var value, comma := Render(items[0], false, depth), Comma(false, |items| > 1);
      assert items[0] in items;
      ValueTight(items[0], depth);
      PlainTight(comma);
      ItemsTight(items[1..], depth);
      TightJoin(value, comma);
      TightJoin(value + comma, RenderItems(items[1..], false, depth));
    }
  }

  lemma {:induction false} MembersTight(members: seq<Member<Json>>, depth: nat)
    requires forall m :: m in members ==> !HasInvalid(m.value)
    ensures Tight(RenderMembers(members, false, depth))
    decreases members, 2
  {
    if members != [] {
      assert members[0] in members;
      MemberTight(members[0], |members| > 1, depth);
      MembersTight(members[1..], depth);
      TightJoin(RenderMember(members[0], |members| > 1, false, depth), RenderMembers(members[1..], false, depth));
    }
  }

  lemma {:induction false} MemberTight(m: Member<Json>, more: bool, depth: nat)
    requires !HasInvalid(m.value)
    ensures Tight(RenderMember(m, more, false, depth))
    decreases m, 1
  {
    var name, value := Quote(m.key), Render(m.value, false, depth);
    MemberTexts(m, more, depth);
    QuoteTight(m.key);
    ValueTight(m.value, depth);
    PlainTight(":");
    PlainTight(If(more, ","));
    TightJoin(name, ":");
    TightJoin(name + ":", value);
    TightJoin(name + ":" + value, If(more, ","));
  }

  /** The formatted text is the unformatted one with the reference's blanks put in; the unformatted one has no blank outside its
      strings, and is the formatted one without them. */
  lemma PrintLayout(j: Json)
    requires !HasInvalid(j)
    ensures Render(j, true, 0) == Indented(Render(j, false, 0), START)
    ensures Squeezed(Render(j, false, 0), Outside) == Render(j, false, 0)
    ensures Squeezed(Render(j, true, 0), Outside) == Render(j, false, 0)
  {
    ValueLaid(j, START, 0);
    ValueTight(j, 0);
    IndentedSqueezed(Render(j, false, 0), START);
  }
}
