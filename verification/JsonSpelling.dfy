/**
 Strings as section 7 of RFC 8259 writes them, and what parse_string makes of every one of them. A spelling is a list of
 pieces; the meaning of a piece is read off tables, not off the parser.
 */
module JsonSpelling {
  import opened CStrings
  import opened JsonText
  import opened Utf16
  import opened JsonParse

  /** What stands between two quotes: plain characters, two-character escapes, and UTF-16 code units in hexadecimal digits. */
  datatype Piece =
    | Plain(c: char)
    | Short(letter: char)
    | Unit(digits: string)

  /** The eight letters that may stand behind a backslash, apart from `u`. */
  const ESCAPES: map<char, char> :=
    map['\"' := '\"', '\\' := '\\', '/' := '/', 'b' := 8 as char, 'f' := 12 as char, 'n' := 10 as char, 'r' := 13 as char, 't' := 9 as char]

  const HEXADECIMAL: map<char, nat> :=
    map['0' := 0, '1' := 1, '2' := 2, '3' := 3, '4' := 4, '5' := 5, '6' := 6, '7' := 7, '8' := 8, '9' := 9,
        'a' := 10, 'b' := 11, 'c' := 12, 'd' := 13, 'e' := 14, 'f' := 15,
        'A' := 10, 'B' := 11, 'C' := 12, 'D' := 13, 'E' := 14, 'F' := 15]

  predicate IsHex(c: char) {
    c in HEXADECIMAL
  }

  function HexOf(c: char): (n: nat)
    requires IsHex(c)
    ensures n < 16
  {
    HEXADECIMAL[c]
  }

  /** A piece that ends where it should: any letter behind a backslash is one, though only eight mean something. */
  predicate Proper(x: Piece) {
    match x
    case Plain(c) => c != '\"' && c != '\\' && c != NUL
    case Short(letter) => letter != 'u' && letter != NUL
    case Unit(digits) =>
      |digits| == 4 && IsHex(digits[0]) && IsHex(digits[1]) && IsHex(digits[2]) && IsHex(digits[3])
  }

  predicate AllProper(ps: seq<Piece>) {
    forall i :: 0 <= i < |ps| ==> Proper(ps[i])
  }

  function SpellPiece(x: Piece): (r: string)
    ensures |r| > 0
  {
    match x
    case Plain(c) => [c]
    case Short(letter) => ['\\', letter]
    case Unit(digits) => ['\\', 'u'] + digits
  }

  function Spell(ps: seq<Piece>): string {
    if ps == [] then "" else SpellPiece(ps[0]) + Spell(ps[1..])
  }

  /** The code unit. */
  function UnitValue(x: Piece): (n: nat)
    requires x.Unit? && Proper(x)
    ensures n < 0x10000
  {
    0x1000 * HexOf(x.digits[0]) + 0x100 * HexOf(x.digits[1]) + 16 * HexOf(x.digits[2]) + HexOf(x.digits[3])
  }

  predicate High(x: Piece)
    requires Proper(x)
  {
    x.Unit? && 0xD800 <= UnitValue(x) < 0xDC00
  }

  predicate Low(x: Piece)
    requires Proper(x)
  {
    x.Unit? && 0xDC00 <= UnitValue(x) < 0xE000
  }

  /** The byte sequences of section 3 of RFC 3629. */
  function Encoded(n: nat): string
    requires n <= 0x10FFFF
  {
    if n < 0x80 then [n as char]
    else if n < 0x800 then [(0xC0 + n / 0x40) as char, (0x80 + n % 0x40) as char]
    else if n < 0x10000 then [(0xE0 + n / 0x1000) as char, (0x80 + n / 0x40 % 0x40) as char, (0x80 + n % 0x40) as char]
    else [(0xF0 + n / 0x40000) as char, (0x80 + n / 0x1000 % 0x40) as char, (0x80 + n / 0x40 % 0x40) as char, (0x80 + n % 0x40) as char]
  }

  /** The character a surrogate pair stands for (section 2.1 of RFC 2781). */
  function Pair(high: nat, low: nat): (n: nat)
    requires 0xD800 <= high < 0xDC00 && 0xDC00 <= low < 0xE000
    ensures 0x10000 <= n <= 0x10FFFF
  {
    0x10000 + (high - 0xD800) * 0x400 + (low - 0xDC00)
  }

  /** The bytes a spelling stands for; None if a letter means nothing, or if a surrogate has not got its other half. */
  function Denotes(ps: seq<Piece>): Option<string>
    requires AllProper(ps)
  {
    if ps == [] then Some("")
    else
      match ps[0]
      case Plain(c) => Behind([c], Denotes(ps[1..]))
      case Short(letter) => if letter in ESCAPES then Behind([ESCAPES[letter]], Denotes(ps[1..])) else None
      case Unit(_) =>
        if High(ps[0]) then
          if |ps| > 1 && Low(ps[1]) then
            Behind(Encoded(Pair(UnitValue(ps[0]), UnitValue(ps[1]))), Denotes(ps[2..]))
          else None
        else if Low(ps[0]) then None
        else Behind(Encoded(UnitValue(ps[0])), Denotes(ps[1..]))
  }

  function Behind(front: string, rest: Option<string>): Option<string> {
    match rest
    case None => None
    case Some(s) => Some(front + s)
  }

  function Quoted(ps: seq<Piece>): string {
    ['\"'] + Spell(ps) + ['\"']
  }

  // ---------- tables and code ----------

  lemma EscapesAre(c: char)
    requires c != 'u'
    ensures Unescaped(c) == if c in ESCAPES then Some(ESCAPES[c]) else None
  {
  }

  lemma HexadecimalIs(c: char)
    ensures HexValue(c) == if IsHex(c) then Some(HexOf(c)) else None
    ensures IsHex(c) ==> c != '\"' && c != '\\' && c != NUL
  {
  }

  lemma EncodedIs(n: nat)
    requires n <= 0x10FFFF
    ensures Utf8(n) == Encoded(n)
  {
    var k := Utf8Length(n);
    LeadFits(n);
    assert n / 0x40 / 0x40 == n / 0x1000 && n / 0x1000 / 0x40 == n / 0x40000;
    assert Trail(n, 0) == "" && Lead(n, 0) == n;
    if k > 1 {
      assert Trail(n / 0x40, 0) == "" && Lead(n, 1) == Lead(n / 0x40, 0);
      assert Trail(n, 1) == "" + [Byte(0x80 + n % 0x40)];
    }
    if k > 2 {
      assert Trail(n / 0x1000, 0) == "" && Lead(n / 0x40, 1) == Lead(n / 0x1000, 0) && Lead(n, 2) == Lead(n / 0x40, 1);
      assert Trail(n / 0x40, 1) == "" + [Byte(0x80 + n / 0x40 % 0x40)];
      assert Trail(n, 2) == Trail(n / 0x40, 1) + [Byte(0x80 + n % 0x40)];
    }
    if k > 3 {
      assert Lead(n / 0x1000, 1) == Lead(n / 0x40000, 0) && Lead(n / 0x40, 2) == Lead(n / 0x1000, 1) && Lead(n, 3) == Lead(n / 0x40, 2);
      assert Trail(n / 0x1000, 1) == "" + [Byte(0x80 + n / 0x1000 % 0x40)];
      assert Trail(n / 0x40, 2) == Trail(n / 0x1000, 1) + [Byte(0x80 + n / 0x40 % 0x40)];
      assert Trail(n, 3) == Trail(n / 0x40, 2) + [Byte(0x80 + n % 0x40)];
    }
  }

  // ---------- reading ----------

  /** A \u that four hexadecimal digits do not follow. */
  predicate BadUnit(c: string, q: nat, end: nat) {
    && q + 1 < end < |c| && c[q] == '\\' && c[q + 1] == 'u'
    && (q + 6 <= end ==> !IsHex(c[q + 2]) || !IsHex(c[q + 3]) || !IsHex(c[q + 4]) || !IsHex(c[q + 5]))
  }

  lemma UnitRead(x: Piece, c: string, p: nat)
    requires x.Unit? && Proper(x) && At(c, p, SpellPiece(x))
    ensures p + 6 <= |c| && c[p] == '\\' && c[p + 1] == 'u' && Hex4(c, p + 2) == UnitValue(x)
    ensures IsHex(c[p + 2]) && IsHex(c[p + 3]) && IsHex(c[p + 4]) && IsHex(c[p + 5])
  {
    var d := x.digits;
    AtSplit(c, p, ['\\', 'u'], d);
    AtIndices(c, p, ['\\', 'u']);
    AtIndices(c, p + 2, d);
    assert c[p + 0] == '\\' && c[p + 1] == 'u';
    assert c[p + 2 + 0] == d[0] && c[p + 2 + 1] == d[1] && c[p + 2 + 2] == d[2] && c[p + 2 + 3] == d[3];
    Hex4Of(c, p + 2, HexOf(d[0]), HexOf(d[1]), HexOf(d[2]), HexOf(d[3]));
  }

  lemma Hex4Of(c: string, p: nat, a: nat, b: nat, d: nat, e: nat)
    requires p + 4 <= |c| && a < 16 && b < 16 && d < 16 && e < 16
    requires IsHex(c[p]) && HexOf(c[p]) == a && IsHex(c[p + 1]) && HexOf(c[p + 1]) == b
    requires IsHex(c[p + 2]) && HexOf(c[p + 2]) == d && IsHex(c[p + 3]) && HexOf(c[p + 3]) == e
    ensures Hex4(c, p) == 0x1000 * a + 0x100 * b + 16 * d + e
  {
    HexadecimalIs(c[p]);
    HexadecimalIs(c[p + 1]);
    HexadecimalIs(c[p + 2]);
    HexadecimalIs(c[p + 3]);
    assert HexNumber(c, p, 0) == Some(0);
    assert HexNumber(c, p, 1) == Some(a);
    assert HexNumber(c, p, 2) == Some(16 * a + b);
    assert HexNumber(c, p, 3) == Some(0x100 * a + 16 * b + d);
  }

  /** Any of the four is no digit: parse_hex4 answers 0. */
  lemma Hex4Bad(c: string, p: nat)
    requires p + 4 <= |c| && (!IsHex(c[p]) || !IsHex(c[p + 1]) || !IsHex(c[p + 2]) || !IsHex(c[p + 3]))
    ensures Hex4(c, p) == 0
  {
    HexadecimalIs(c[p]);
    HexadecimalIs(c[p + 1]);
    HexadecimalIs(c[p + 2]);
    HexadecimalIs(c[p + 3]);
    NotHex(c, p, if !IsHex(c[p]) then 0 else if !IsHex(c[p + 1]) then 1 else if !IsHex(c[p + 2]) then 2 else 3, 4);
  }

  /** Where a spelling stops: at the end of the string, or at a \u without its digits. */
  predicate Stops(c: string, q: nat, end: nat) {
    q <= end < |c| && (q == end || BadUnit(c, q, end))
  }

  /** The first character of a piece, and the second one behind a backslash. */
  lemma PieceAt(x: Piece, c: string, p: nat)
    requires Proper(x) && At(c, p, SpellPiece(x))
    ensures p < |c|
    ensures x.Plain? ==> c[p] == x.c
    ensures x.Short? ==> p + 1 < |c| && c[p] == '\\' && c[p + 1] == x.letter
    ensures x.Unit? ==> p + 5 < |c| && c[p] == '\\' && c[p + 1] == 'u'
  {
    AtIndices(c, p, SpellPiece(x));
    assert c[p + 0] == SpellPiece(x)[0];
    assert |SpellPiece(x)| > 1 ==> c[p + 1] == SpellPiece(x)[1];
  }

  lemma PairIs(high: nat, low: nat)
    requires 0xD800 <= high < 0xDC00 && 0xDC00 <= low < 0xE000
    ensures 0x10000 + (high % 0x400) * 0x400 + low % 0x400 == Pair(high, low)
    ensures Utf8(Pair(high, low)) == Encoded(Pair(high, low))
  {
    assert high % 0x400 == high - 0xD800 && low % 0x400 == low - 0xDC00;
    EncodedIs(Pair(high, low));
  }

  /** utf16_literal_to_utf8, from the code unit at the front and what follows it. */
  lemma LiteralIs(c: string, p: nat, end: nat, v: nat, paired: bool, w: nat)
    requires p + 6 <= end <= |c| && v == Hex4(c, p + 2)
    requires paired ==> p + 12 <= end && c[p + 6] == '\\' && c[p + 7] == 'u' && w == Hex4(c, p + 8) && 0xDC00 <= w < 0xE000
    requires !paired && p + 12 <= end ==>
        c[p + 6] != '\\' || c[p + 7] != 'u' || Hex4(c, p + 8) < 0xDC00 || Hex4(c, p + 8) >= 0xE000
    ensures Literal(c, p, end) ==
            if 0xD800 <= v < 0xDC00 then if paired then Some((Encoded(Pair(v, w)), 12)) else None
            else if 0xDC00 <= v < 0xE000 then None
            else Some((Encoded(v), 6))
  {
    if 0xD800 <= v < 0xDC00 {
      if paired {
        PairIs(v, w);
      }
    } else {
      EncodedIs(v);
    }
  }

  /** The literal a unit makes with what follows it. */
  lemma UnitLiteral(ps: seq<Piece>, c: string, p: nat, end: nat, q: nat)
    requires AllProper(ps) && ps != [] && ps[0].Unit? && At(c, p, Spell(ps)) && q == p + |Spell(ps)| && Stops(c, q, end)
    ensures p + 6 <= end
    ensures Literal(c, p, end) ==
            if High(ps[0]) then
              if |ps| > 1 && Low(ps[1]) then Some((Encoded(Pair(UnitValue(ps[0]), UnitValue(ps[1]))), 12)) else None
            else if Low(ps[0]) then None
            else Some((Encoded(UnitValue(ps[0])), 6))
  {
    AtSplit(c, p, SpellPiece(ps[0]), Spell(ps[1..]));
    UnitRead(ps[0], c, p);
    SecondUnit(ps[1..], c, p + 6, end, q);
    var paired := |ps| > 1 && Low(ps[1]);
    LiteralIs(c, p, end, UnitValue(ps[0]), paired, if paired then UnitValue(ps[1]) else 0);
  }

  /** What the code sees behind a high surrogate. */
  lemma SecondUnit(ps: seq<Piece>, c: string, p: nat, end: nat, q: nat)
    requires AllProper(ps) && At(c, p, Spell(ps)) && q == p + |Spell(ps)| && Stops(c, q, end)
    ensures ps != [] && ps[0].Unit? ==>
        p + 6 <= end && c[p] == '\\' && c[p + 1] == 'u' && Hex4(c, p + 2) == UnitValue(ps[0])
    ensures !(ps != [] && ps[0].Unit?) && p + 6 <= end ==> c[p] != '\\' || c[p + 1] != 'u' || Hex4(c, p + 2) == 0
  {
    if ps == [] {
      if p + 6 <= end {
        Hex4Bad(c, p + 2);
      }
    } else {
      AtSplit(c, p, SpellPiece(ps[0]), Spell(ps[1..]));
      PieceAt(ps[0], c, p);
      if ps[0].Unit? {
        UnitRead(ps[0], c, p);
      }
    }
  }

  /** The second scan reads a spelling as what it denotes. */
  lemma {:induction false} DecodeSpelled(ps: seq<Piece>, c: string, p: nat, end: nat, q: nat)
    requires AllProper(ps) && At(c, p, Spell(ps)) && q == p + |Spell(ps)| && Stops(c, q, end)
    ensures Decode(c, p, end) == if Denotes(ps) == None then None else Prepend(Denotes(ps).value, Decode(c, q, end))
    decreases |ps|
  {
    if ps == [] {
      PrependNothing(Decode(c, q, end));
    } else {
      AtSplit(c, p, SpellPiece(ps[0]), Spell(ps[1..]));
      PieceAt(ps[0], c, p);
      var next := p + |SpellPiece(ps[0])|;
      match ps[0]
      case Plain(x) =>
        DecodeSpelled(ps[1..], c, next, end, q);
        PrependTwice([x], Denotes(ps[1..]), Decode(c, q, end));
      case Short(letter) =>
        EscapesAre(letter);
        DecodeSpelled(ps[1..], c, next, end, q);
        if letter in ESCAPES {
          PrependTwice([ESCAPES[letter]], Denotes(ps[1..]), Decode(c, q, end));
        }
      case Unit(_) => DecodeUnit(ps, c, p, end, q);
    }
  }

  lemma {:induction false} DecodeUnit(ps: seq<Piece>, c: string, p: nat, end: nat, q: nat)
    requires AllProper(ps) && ps != [] && ps[0].Unit? && At(c, p, Spell(ps)) && q == p + |Spell(ps)| && Stops(c, q, end)
    ensures Decode(c, p, end) == if Denotes(ps) == None then None else Prepend(Denotes(ps).value, Decode(c, q, end))
    decreases |ps|, 0
  {
    AtSplit(c, p, SpellPiece(ps[0]), Spell(ps[1..]));
    PieceAt(ps[0], c, p);
    UnitLiteral(ps, c, p, end, q);
    var literal := Literal(c, p, end);
    if literal.Some? {
      var k := if High(ps[0]) then 2 else 1;
      if k == 2 {
        AtSplit(c, p + 6, SpellPiece(ps[1]), Spell(ps[1..][1..]));
        assert ps[1..][1..] == ps[2..];
      }
      DecodeSpelled(ps[k..], c, p + 6 * k, end, q);
      PrependTwice(literal.value.0, Denotes(ps[k..]), Decode(c, q, end));
    }
  }

  lemma PrependNothing(rest: Option<string>)
    ensures Prepend("", rest) == rest
  {
    if rest.Some? {
      assert "" + rest.value == rest.value;
    }
  }

  lemma PrependTwice(a: string, b: Option<string>, rest: Option<string>)
    ensures Prepend(a, if b == None then None else Prepend(b.value, rest)) ==
            if Behind(a, b) == None then None else Prepend(Behind(a, b).value, rest)
  {
    if b.Some? && rest.Some? {
      assert a + (b.value + rest.value) == a + b.value + rest.value;
    }
  }

  // ---------- the closing quote ----------

  lemma CloseAfterPiece(x: Piece, c: string, p: nat)
    requires Proper(x) && At(c, p, SpellPiece(x))
    ensures ClosingQuote(c, p) == ClosingQuote(c, p + |SpellPiece(x)|)
  {
    PieceAt(x, c, p);
    if x.Unit? {
      UnitRead(x, c, p);
      CloseAfterUnit(c, p);
    }
  }

  lemma CloseAfterUnit(c: string, p: nat)
    requires p + 6 <= |c| && c[p] == '\\'
    requires IsHex(c[p + 2]) && IsHex(c[p + 3]) && IsHex(c[p + 4]) && IsHex(c[p + 5])
    ensures ClosingQuote(c, p) == ClosingQuote(c, p + 6)
  {
    HexadecimalIs(c[p + 2]);
    HexadecimalIs(c[p + 3]);
    HexadecimalIs(c[p + 4]);
    HexadecimalIs(c[p + 5]);
    assert ClosingQuote(c, p) == ClosingQuote(c, p + 2) == ClosingQuote(c, p + 3);
    assert ClosingQuote(c, p + 3) == ClosingQuote(c, p + 4) == ClosingQuote(c, p + 5);
  }

  /** The first scan passes a spelling as a whole. */
  lemma {:induction false} CloseAfter(ps: seq<Piece>, c: string, p: nat)
    requires AllProper(ps) && At(c, p, Spell(ps))
    ensures p + |Spell(ps)| <= |c| && ClosingQuote(c, p) == ClosingQuote(c, p + |Spell(ps)|)
    decreases |ps|
  {
    if ps != [] {
      AtSplit(c, p, SpellPiece(ps[0]), Spell(ps[1..]));
      CloseAfterPiece(ps[0], c, p);
      CloseAfter(ps[1..], c, p + |SpellPiece(ps[0])|);
    }
  }

  // ---------- every string ----------

  /** parse_string reads every spelling as what it denotes, up to the first NUL in that, and refuses exactly the spellings that
      denote nothing. */
  lemma EverySpelling(ps: seq<Piece>, c: string, o: nat)
    requires Terminated(c) && AllProper(ps) && At(c, o, Quoted(ps))
    ensures o + |Quoted(ps)| < |c|
    ensures ParseStringAt(c, o) == if Denotes(ps) == None then Failed else Parsed(CString(Denotes(ps).value), o + |Quoted(ps)|)
  {
    AtSplit(c, o, ['\"'] + Spell(ps), ['\"']);
    AtSplit(c, o, ['\"'], Spell(ps));
    var end := o + 1 + |Spell(ps)|;
    AtChar(c, o, ['\"']);
    AtChar(c, end, ['\"']);
    CloseAfter(ps, c, o + 1);
    DecodeSpelled(ps, c, o + 1, end, end);
    if Denotes(ps).Some? {
      assert Denotes(ps).value + "" == Denotes(ps).value;
    }
  }

  /** What the first scan accepts is a spelling from end to end, or has a \u without its digits behind the spelling. */
  lemma {:induction false} EveryBody(c: string, p: nat, end: nat) returns (ps: seq<Piece>, q: nat)
    requires Terminated(c) && p <= |c| && ClosingQuote(c, p) == Some(end)
    ensures AllProper(ps) && At(c, p, Spell(ps)) && q == p + |Spell(ps)| && Stops(c, q, end)
    decreases |c| - p
  {
    if p == end {
      return [], p;
    }
    var bad := c[p] == '\\' && c[p + 1] == 'u' && BadUnit(c, p, end);
    if bad {
      return [], p;
    }
    var x := FirstPiece(c, p, end);
    ps, q := EveryBody(c, p + |SpellPiece(x)|, end);
    AtJoin(c, p, SpellPiece(x), Spell(ps));
    ps := [x] + ps;
  }

  lemma FirstPiece(c: string, p: nat, end: nat) returns (x: Piece)
    requires Terminated(c) && p < |c| && ClosingQuote(c, p) == Some(end) && p != end && !BadUnit(c, p, end)
    ensures Proper(x) && At(c, p, SpellPiece(x)) && p + |SpellPiece(x)| <= |c|
    ensures ClosingQuote(c, p + |SpellPiece(x)|) == Some(end)
  {
    if c[p] != '\\' {
      x := Plain(c[p]);
    } else if c[p + 1] != 'u' {
      x := Short(c[p + 1]);
    } else {
      CloseAfterUnit(c, p);
      x := Unit([c[p + 2], c[p + 3], c[p + 4], c[p + 5]]);
    }
    assert forall i :: 0 <= i < |SpellPiece(x)| ==> c[p + i] == SpellPiece(x)[i];
    AtFrom(c, p, SpellPiece(x));
    CloseAfterPiece(x, c, p);
  }

  /** A \u without its digits reads as a NUL, so the value ends there, or the whole string is refused. */
  lemma BadUnitEnds(ps: seq<Piece>, c: string, o: nat, end: nat, q: nat)
    requires Terminated(c) && o + 1 < |c| && c[o] == '\"' && ClosingQuote(c, o + 1) == Some(end)
    requires AllProper(ps) && At(c, o + 1, Spell(ps)) && q == o + 1 + |Spell(ps)| && BadUnit(c, q, end)
    ensures ParseStringAt(c, o).Parsed? ==>
        q + 6 <= end && Denotes(ps).Some? && ParseStringAt(c, o) == Parsed(CString(Denotes(ps).value), end + 1)
  {
    DecodeSpelled(ps, c, o + 1, end, q);
    BadUnitDecoded(c, q, end);
    if Denotes(ps).Some? && Decode(c, q, end).Some? {
      CStringStops(Denotes(ps).value, Decode(c, q, end).value);
    }
  }

  lemma BadUnitDecoded(c: string, q: nat, end: nat)
    requires BadUnit(c, q, end)
    ensures Decode(c, q, end).Some? ==> q + 6 <= end && Decode(c, q, end).value != "" && Decode(c, q, end).value[0] == NUL
  {
    if q + 6 <= end {
      Hex4Bad(c, q + 2);
      EncodedIs(0);
      assert Literal(c, q, end) == Some(([NUL], 6));
    }
  }

  lemma {:induction false} CStringStops(a: string, b: string)
    requires b != "" && b[0] == NUL
    ensures CString(a + b) == CString(a)
  {
    if a == "" {
      assert a + b == b;
    } else {
      assert (a + b)[1..] == a[1..] + b;
      CStringStops(a[1..], b);
    }
  }

  // ---------- what the printer writes ----------

  lemma HexDigitIs(d: nat)
    requires d < 16
    ensures IsHex(HexDigit(d)) && HexOf(HexDigit(d)) == d
  {
  }

  /** The letters the printer puts behind a backslash: all but the one for the slash. */
  const LETTERS: map<char, char> :=
    map['\"' := '\"', '\\' := '\\', 8 as char := 'b', 12 as char := 'f', 10 as char := 'n', 13 as char := 'r', 9 as char := 't']

  const LOWER_DIGITS: string := "0123456789abcdef"

  /** The piece the printer writes for a character: a letter if there is one, the character itself if it is no control character,
      and else four digits, of which the first two are 0. */
  function Written(x: char): Piece {
    if x in LETTERS then Short(LETTERS[x])
    else if x >= ' ' then Plain(x)
    else Unit(['0', '0', LOWER_DIGITS[x as int / 16], LOWER_DIGITS[x as int % 16]])
  }

  predicate AsWritten(ps: seq<Piece>, s: string) {
    |ps| == |s| && forall i :: 0 <= i < |s| ==> ps[i] == Written(s[i])
  }

  lemma DigitIs(d: nat)
    requires d < 16
    ensures HexDigit(d) == LOWER_DIGITS[d]
  {
  }

  /** The piece written for a character denotes it. */
  lemma EscapedChar(x: char) returns (piece: Piece)
    requires x != NUL
    ensures piece == Written(x) && Proper(piece) && SpellPiece(piece) == EscapeChar(x)
    ensures AllProper([piece]) && Denotes([piece]) == Some([x])
  {
    var code, n := EscapeChar(x), x as int;
    piece := Written(x);
    if piece.Unit? {
      DigitIs(n / 16);
      DigitIs(n % 16);
      HexDigitIs(0);
      HexDigitIs(n / 16);
      HexDigitIs(n % 16);
      assert UnitValue(piece) == n;
      assert ['\\', 'u'] + piece.digits == code;
    }
    assert [piece][1..] == [] && [x] + "" == [x];
  }

  /** A printed string spells the string, every character by the piece written for it. */
  lemma {:induction false} EscapeSpelled(s: string) returns (ps: seq<Piece>)
    requires NUL !in s
    ensures AllProper(ps) && Spell(ps) == Escape(s) && Denotes(ps) == Some(s)
    ensures AsWritten(ps, s)
    decreases |s|
  {
    if s == "" {
      ps := [];
    } else {
      assert s[0] in s;
      var piece := EscapedChar(s[0]);
      var rest := EscapeSpelled(s[1..]);
      ps := [piece] + rest;
      assert ps[1..] == rest && [piece][1..] == [];
      DenotesFirst(piece, rest, s[0]);
      assert s == [s[0]] + s[1..];
    }
  }

  /** A piece that denotes a character on its own does so in front of any others. */
  lemma DenotesFirst(piece: Piece, rest: seq<Piece>, x: char)
    requires AllProper([piece]) && AllProper(rest) && Denotes([piece]) == Some([x])
    ensures AllProper([piece] + rest) && Denotes([piece] + rest) == Behind([x], Denotes(rest))
  {
    assert ([piece] + rest)[1..] == rest && [piece][1..] == [];
    assert Proper([piece][0]);
    assert Denotes([]) == Some("");
    match piece
    case Plain(c) => assert [c] + "" == [c];
    case Short(letter) => assert letter in ESCAPES && [ESCAPES[letter]] + "" == [ESCAPES[letter]];
    case Unit(_) => assert Encoded(UnitValue(piece)) + "" == Encoded(UnitValue(piece));
  }
}
