/** The text cJSON prints for a tree, formatted or not, as a pure function of the tree. */
module JsonText {
  import opened CStrings
  import opened JsonTrees

  const NUL: char := 0 as char
  const BS: char := 8 as char
  const FF: char := 12 as char

  function HexDigit(d: nat): char
    requires d < 16
  {
    if d < 10 then Digit(d) else (d - 10 + 'a' as int) as char
  }

  /** How one character stands inside a printed string. */
  function EscapeChar(c: char): (r: string)
    ensures 1 <= |r| <= 6
  {
    if c as int > 31 && c != '\"' && c != '\\' then [c]
    else if c == '\\' then ['\\', '\\']
    else if c == '\"' then ['\\', '\"']
    else if c == BS then ['\\', 'b']
    else if c == FF then ['\\', 'f']
    else if c == '\n' then ['\\', 'n']
    else if c == '\r' then ['\\', 'r']
    else if c == '\t' then ['\\', 't']
    else ['\\', 'u', '0', '0', HexDigit(c as int / 16), HexDigit(c as int % 16)]
  }

  function Escape(s: string): (r: string)
    ensures |r| >= |s|
  {
    if s == "" then "" else EscapeChar(s[0]) + Escape(s[1..])
  }

  function Quote(s: string): (r: string)
    ensures |r| >= 2
  {
    ['\"'] + Escape(s) + ['\"']
  }

  lemma {:induction false} EscapeAppend(a: string, b: string)
    ensures Escape(a + b) == Escape(a) + Escape(b)
  {
    if a == "" {
      assert a + b == b;
    } else {
      assert (a + b)[1..] == a[1..] + b;
      EscapeAppend(a[1..], b);
    }
  }

  lemma EscapeSnoc(s: string, i: nat)
    requires i < |s|
    ensures Escape(s[..i + 1]) == Escape(s[..i]) + EscapeChar(s[i])
  {
    var c := [s[i]];
    assert s[..i + 1] == s[..i] + c;
    EscapeAppend(s[..i], c);
    assert c[1..] == "" && Escape(c) == EscapeChar(c[0]) + "";
  }

  /** What "%1.15g" prints for an integer of at most 15 digits. */
  function Numeral(n: int): (r: string)
    ensures |r| > 0
  {
    if n < 0 then ['-'] + Decimal(-n) else Decimal(n)
  }

  function Tabs(n: nat): (r: string)
    ensures |r| == n && forall c :: c in r ==> c == '\t'
  {
    seq(n, _ => '\t')
  }

  function If(format: bool, s: string): string {
    if format then s else ""
  }

  /** The text of a tree that is nested `depth` deep. */
  function Render(j: Json, format: bool, depth: nat): (r: string)
    ensures !j.Invalid? ==> |r| > 0
    decreases j, 0
  {
    match j
    case Invalid => ""
    case Null => "null"
    case False => "false"
    case True => "true"
    case Number(n) => Numeral(n)
    case String(s) => Quote(s)
    case Array(items) => ['['] + RenderItems(items, format, depth + 1) + [']']
    case Object(members) => OpenText(format) + RenderMembers(members, format, depth + 1) + CloseText(format, depth)
  }

  function OpenText(format: bool): string {
    if format then "{\n" else "{"
  }

  function CloseText(format: bool, depth: nat): string {
    If(format, Tabs(depth)) + ['}']
  }

  function ColonText(format: bool): string {
    if format then ":\t" else ":"
  }

  /** Indentation, the name and the colon. */
  function KeyText(name: string, format: bool, depth: nat): string {
    If(format, Tabs(depth)) + Quote(name) + ColonText(format)
  }

  /** What follows the value of a member. */
  function TailText(more: bool, format: bool): string {
    If(more, ",") + If(format, ['\n'])
  }

  function Comma(format: bool, more: bool): string {
    if !more then "" else if format then ", " else ","
  }

  function RenderItems(items: seq<Json>, format: bool, depth: nat): string
    decreases items, 1
  {
    if items == [] then ""
    else Render(items[0], format, depth) + Comma(format, |items| > 1) + RenderItems(items[1..], format, depth)
  }

  function RenderMember(m: Member<Json>, more: bool, format: bool, depth: nat): string
    decreases m, 1
  {
    KeyText(m.key, format, depth) + Render(m.value, format, depth) + TailText(more, format)
  }

  function RenderMembers(members: seq<Member<Json>>, format: bool, depth: nat): string
    decreases members, 1
  {
    if members == [] then ""
    else RenderMember(members[0], |members| > 1, format, depth) + RenderMembers(members[1..], format, depth)
  }

  /** Numbers of at most 15 digits print as they are written. */
  const NUMBER_LIMIT: int := 1_000_000_000_000_000

  /** Strings are C strings, and numbers are integers of at most 15 digits. */
  predicate Printable(j: Json)
    decreases j
  {
    match j
    case Number(n) => -NUMBER_LIMIT < n < NUMBER_LIMIT
    case String(s) => NUL !in s
    case Array(items) => forall x | x in items :: Printable(x)
    case Object(members) => forall m | m in members :: NUL !in m.key && Printable(m.value)
    case _ => true
  }

  // ---------- what the text is made of ----------

  lemma {:induction false} EscapeClean(s: string)
    requires NUL !in s
    ensures NUL !in Escape(s)
  {
    if s != "" {
      EscapeClean(s[1..]);
      assert s[0] in s;
      assert NUL !in EscapeChar(s[0]) by {
        assert NUL as int == 0;
        assert forall d: nat :: d < 16 ==> HexDigit(d) != NUL;
      }
    }
  }

  lemma NumeralClean(n: int)
    ensures NUL !in Numeral(n)
  {
    assert !IsDigit(NUL) && '-' != NUL;
  }

  /** A printed tree is a C string: it holds no NUL. */
  lemma {:induction false} RenderClean(j: Json, format: bool, depth: nat)
    requires Printable(j)
    ensures NUL !in Render(j, format, depth)
    decreases j, 0
  {
    assert NUL as int == 0;
    match j
    case Number(n) => NumeralClean(n);
    case String(s) => EscapeClean(s);
    case Array(items) => ItemsClean(items, format, depth + 1);
    case Object(members) => MembersClean(members, format, depth + 1);
    case _ =>
  }

  lemma {:induction false} ItemsClean(items: seq<Json>, format: bool, depth: nat)
    requires forall x :: x in items ==> Printable(x)
    ensures NUL !in RenderItems(items, format, depth)
    decreases items, 1
  {
    if items != [] {
      assert items[0] in items;
      RenderClean(items[0], format, depth);
      ItemsClean(items[1..], format, depth);
    }
  }

  lemma {:induction false} MemberClean(m: Member<Json>, more: bool, format: bool, depth: nat)
    requires NUL !in m.key && Printable(m.value)
    ensures NUL !in RenderMember(m, more, format, depth)
    decreases m, 1
  {
    EscapeClean(m.key);
    RenderClean(m.value, format, depth);
  }

  lemma {:induction false} MembersClean(members: seq<Member<Json>>, format: bool, depth: nat)
    requires forall m :: m in members ==> NUL !in m.key && Printable(m.value)
    ensures NUL !in RenderMembers(members, format, depth)
    decreases members, 1
  {
    if members != [] {
      assert members[0] in members;
      MemberClean(members[0], |members| > 1, format, depth);
      MembersClean(members[1..], format, depth);
    }
  }
}
