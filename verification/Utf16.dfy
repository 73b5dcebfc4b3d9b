/** \uXXXX literals: hexadecimal digits, surrogate pairs, and the UTF-8 bytes they stand for. */
module Utf16 {
  import opened CStrings
  import opened JsonText

  /** The value of a hexadecimal digit in either case. */
  function HexValue(c: char): (r: Option<nat>)
    ensures r.Some? ==> r.value < 16
  {
    if '0' <= c <= '9' then Some(c as int - '0' as int)
    else if 'A' <= c <= 'F' then Some(10 + c as int - 'A' as int)
    else if 'a' <= c <= 'f' then Some(10 + c as int - 'a' as int)
    else None
  }

  function Pow16(n: nat): nat {
    if n == 0 then 1 else 16 * Pow16(n - 1)
  }

  /** The number that `n` characters from `p` on stand for; None if one of them is not a digit. */
  function HexNumber(c: string, p: nat, n: nat): (r: Option<nat>)
    requires p + n <= |c|
    ensures r.Some? ==> r.value < Pow16(n)
  {
    if n == 0 then Some(0)
    else
      var front, last := HexNumber(c, p, n - 1), HexValue(c[p + n - 1]);
      if front == None || last == None then None else Some(16 * front.value + last.value)
  }

  /** parse_hex4 answers 0 for four characters that are not all digits. */
  function Hex4(c: string, p: nat): (r: nat)
    requires p + 4 <= |c|
    ensures r < 0x10000
  {
    assert Pow16(4) == 0x10000;
    var n := HexNumber(c, p, 4);
    if n == None then 0 else n.value
  }

  lemma {:induction false} NotHex(c: string, p: nat, i: nat, n: nat)
    requires i < n && p + n <= |c| && HexValue(c[p + i]) == None
    ensures HexNumber(c, p, n) == None
    decreases n
  {
    if n > i + 1 {
      NotHex(c, p, i, n - 1);
    }
  }

  /** parse_hex4. */
  method ParseHex4(input: string, p: nat) returns (h: nat)
    requires p + 4 <= |input|
    ensures h == Hex4(input, p)
  {
    h := 0;
    var i := 0;
    while i < 4
      invariant i <= 4 && HexNumber(input, p, i).Some?
      invariant h == (if i < 4 then 16 else 1) * HexNumber(input, p, i).value
    {
      var c := input[p + i];
      if '0' <= c <= '9' {
        h := h + (c as int - '0' as int);
      } else if 'A' <= c <= 'F' {
        h := h + (10 + c as int - 'A' as int);
      } else if 'a' <= c <= 'f' {
        h := h + (10 + c as int - 'a' as int);
      } else {
        NotHex(input, p, i, 4);
        return 0;
      }
      if i < 3 {
        h := 16 * h;
      }
      i := i + 1;
    }
  }

  function Byte(n: nat): char
    requires n < 256
  {
    n as char
  }

  /** How many bytes UTF-8 needs (section 3 of RFC 3629). */
  function Utf8Length(codepoint: nat): (n: nat)
    ensures 1 <= n <= 4
  {
    if codepoint < 0x80 then 1 else if codepoint < 0x800 then 2 else if codepoint < 0x10000 then 3 else 4
  }

  /** The continuation bytes. */
  function Trail(codepoint: nat, n: nat): (r: string)
    ensures |r| == n
  {
    if n == 0 then "" else Trail(codepoint / 64, n - 1) + [Byte(0x80 + codepoint % 64)]
  }

  /** What the continuation bytes leave for the first byte. */
  function Lead(codepoint: nat, n: nat): nat {
    if n == 0 then codepoint else Lead(codepoint / 64, n - 1)
  }

  function Mark(n: nat): nat {
    if n == 1 then 0 else if n == 2 then 0xC0 else if n == 3 then 0xE0 else 0xF0
  }

  function Utf8(codepoint: nat): (r: string)
    requires codepoint <= 0x10FFFF
    ensures |r| == Utf8Length(codepoint)
  {
    var n := Utf8Length(codepoint);
    LeadFits(codepoint);
    [Byte(Mark(n) + Lead(codepoint, n - 1))] + Trail(codepoint, n - 1)
  }

  lemma LeadFits(codepoint: nat)
    requires codepoint <= 0x10FFFF
    ensures var n := Utf8Length(codepoint);
      Lead(codepoint, n - 1) < (if n == 1 then 0x80 else if n == 2 then 0x20 else if n == 3 then 0x10 else 8)
  {
    var n := Utf8Length(codepoint);
    if n >= 2 {
      assert Lead(codepoint, n - 1) == Lead(codepoint / 64, n - 2);
    }
    if n >= 3 {
      assert Lead(codepoint / 64, n - 2) == Lead(codepoint / 64 / 64, n - 3);
    }
    if n == 4 {
      assert Lead(codepoint / 64 / 64, 1) == Lead(codepoint / 64 / 64 / 64, 0);
    }
  }

  /** The bytes a literal at `p` stands for, and the length of the literal; the string ends at `end`. The two characters
      in front of the digits were looked at already. */
  function Literal(c: string, p: nat, end: nat): (r: Option<(string, nat)>)
    requires p <= end <= |c|
    ensures r.Some? ==> p + r.value.1 <= end && (r.value.1 == 6 || r.value.1 == 12) && 2 * |r.value.0| <= r.value.1
  {
    if end - p < 6 then None
    else
      var first := Hex4(c, p + 2);
      if 0xDC00 <= first <= 0xDFFF then None
      else if 0xD800 <= first <= 0xDBFF then
        if end - p < 12 || c[p + 6] != '\\' || c[p + 7] != 'u' then None
        else
          var second := Hex4(c, p + 8);
          if second < 0xDC00 || second > 0xDFFF then None
          else Some((Utf8(0x10000 + (first % 0x400) * 0x400 + second % 0x400), 12))
      else Some((Utf8(first), 6))
  }

  /** The first half of utf16_literal_to_utf8: the code point, and the length of the literal or 0. */
  method ReadLiteral(c: string, p: nat, end: nat) returns (codepoint: nat, sequenceLength: nat)
    requires p <= end <= |c|
    ensures sequenceLength == 0 <==> Literal(c, p, end) == None
    ensures sequenceLength > 0 ==> codepoint <= 0x10FFFF && Literal(c, p, end) == Some((Utf8(codepoint), sequenceLength))
  {
    if end - p < 6 {
      return 0, 0;
    }
    var first := ParseHex4(c, p + 2);
    if 0xDC00 <= first <= 0xDFFF {
      return 0, 0;
    }
    if 0xD800 <= first <= 0xDBFF {
      if end - (p + 6) < 6 || c[p + 6] != '\\' || c[p + 7] != 'u' {
        return 0, 0;
      }
      var second := ParseHex4(c, p + 8);
      if second < 0xDC00 || second > 0xDFFF {
        return 0, 0;
      }
      return 0x10000 + (first % 0x400) * 0x400 + second % 0x400, 12;
    }
    return first, 6;
  }

  /** utf16_literal_to_utf8: the bytes are written from the last to the first. */
  method LiteralToUtf8(c: string, p: nat, end: nat, output: array<char>, at: nat) returns (written: nat, sequenceLength: nat)
    requires p <= end <= |c|
    requires Literal(c, p, end).Some? ==> at + |Literal(c, p, end).value.0| <= output.Length
    modifies output
    ensures sequenceLength == 0 <==> Literal(c, p, end) == None
    ensures Literal(c, p, end).Some? ==>
      && (written, sequenceLength) == (|Literal(c, p, end).value.0|, Literal(c, p, end).value.1)
      && output[..at + written] == old(output[..at]) + Literal(c, p, end).value.0
  {
    var codepoint;
    written := 0;
    codepoint, sequenceLength := ReadLiteral(c, p, end);
    if sequenceLength > 0 {
      written := WriteUtf8(codepoint, output, at);
    }
  }

  method WriteUtf8(codepoint: nat, output: array<char>, at: nat) returns (length: nat)
    requires codepoint <= 0x10FFFF && at + Utf8Length(codepoint) <= output.Length
    modifies output
    ensures length == Utf8Length(codepoint)
    ensures output[..at + length] == old(output[..at]) + Utf8(codepoint)
  {
    length := Utf8Length(codepoint);
    LeadFits(codepoint);
    var rest, position := codepoint, length - 1;
    ghost var tail := "";
    while position > 0
      invariant 0 <= position < length
      invariant output[..at] == old(output[..at])
      invariant output[at + position + 1..at + length] == tail
      invariant Trail(codepoint, length - 1) == Trail(rest, position) + tail
      invariant Lead(codepoint, length - 1) == Lead(rest, position)
    {
      output[at + position] := Byte(0x80 + rest % 64);
      Shuffle(Trail(rest / 64, position - 1), Byte(0x80 + rest % 64), tail);
      tail := [Byte(0x80 + rest % 64)] + tail;
      rest, position := rest / 64, position - 1;
    }
    output[at] := Byte(Mark(length) + rest);
    assert tail == Trail(codepoint, length - 1);
    Glue(output[..at + length], old(output[..at]), output[at], tail);
  }

  lemma Glue(s: string, before: string, c: char, tail: string)
    requires |s| == |before| + 1 + |tail|
    requires s[..|before|] == before && s[|before|] == c && s[|before| + 1..] == tail
    ensures s == before + ([c] + tail)
  {
  }

  lemma Shuffle(a: string, c: char, b: string)
    ensures a + [c] + b == a + ([c] + b)
  {
  }

  // ---------- what the literal and the bytes mean ----------

  /** Decoding as section 3 of RFC 3629 reads the bytes. */
  function DecodeUtf8(bytes: string): nat
    requires |bytes| > 0
  {
    var first := bytes[0] as int;
    Fold(if first < 0x80 then first else if first < 0xE0 then first % 0x20 else if first < 0xF0 then first % 0x10 else first % 8,
         bytes[1..])
  }

  function Fold(acc: nat, bytes: string): nat
    decreases |bytes|
  {
    if bytes == "" then acc else Fold(64 * acc + (bytes[0] as int) % 64, bytes[1..])
  }

  lemma {:induction false} FoldTrail(codepoint: nat, n: nat)
    ensures forall c :: c in Trail(codepoint, n) ==> c as int < 256
    ensures Fold(Lead(codepoint, n), Trail(codepoint, n)) == codepoint
  {
    if n > 0 {
      FoldTrail(codepoint / 64, n - 1);
      FoldSnoc(Lead(codepoint, n), Trail(codepoint / 64, n - 1), Byte(0x80 + codepoint % 64));
    }
  }

  lemma {:induction false} FoldSnoc(acc: nat, bytes: string, c: char)
    ensures Fold(acc, bytes + [c]) == 64 * Fold(acc, bytes) + (c as int) % 64
    decreases |bytes|
  {
    if bytes == "" {
      assert (bytes + [c])[1..] == "";
    } else {
      assert (bytes + [c])[1..] == bytes[1..] + [c];
      FoldSnoc(64 * acc + (bytes[0] as int) % 64, bytes[1..], c);
    }
  }

  /** The bytes written for a code point are its UTF-8. */
  lemma Utf8Decodes(codepoint: nat)
    requires codepoint <= 0x10FFFF
    ensures forall c :: c in Utf8(codepoint) ==> c as int < 256
    ensures DecodeUtf8(Utf8(codepoint)) == codepoint
  {
    var n := Utf8Length(codepoint);
    FoldTrail(codepoint, n - 1);
    LeadFits(codepoint);
    assert Utf8(codepoint)[1..] == Trail(codepoint, n - 1);
  }

  /** Four hexadecimal digits. */
  function Digits4(n: nat): (s: string)
    requires n < 0x10000
    ensures |s| == 4
  {
    [HexDigit(n / 0x1000), HexDigit(n / 0x100 % 16), HexDigit(n / 16 % 16), HexDigit(n % 16)]
  }

  lemma DigitValue(d: nat)
    requires d < 16
    ensures HexValue(HexDigit(d)) == Some(d)
  {
  }

  lemma NextDigit(c: string, p: nat, i: nat, n: nat)
    requires p + i < |c| && HexNumber(c, p, i) == Some(n / 16) && c[p + i] == HexDigit(n % 16)
    ensures HexNumber(c, p, i + 1) == Some(n)
  {
    DigitValue(n % 16);
  }

  lemma Hex4Digits(c: string, p: nat, n: nat)
    requires n < 0x10000 && At(c, p, Digits4(n))
    ensures Hex4(c, p) == n
  {
    AtIndices(c, p, Digits4(n));
    assert c[p + 0] == Digits4(n)[0] && c[p + 1] == Digits4(n)[1] && c[p + 2] == Digits4(n)[2] && c[p + 3] == Digits4(n)[3];
    assert n / 16 / 16 == n / 0x100 && n / 0x100 / 16 == n / 0x1000;
    assert HexNumber(c, p, 0) == Some(n / 0x1000 / 16);
    NextDigit(c, p, 0, n / 0x1000);
    NextDigit(c, p, 1, n / 0x100);
    NextDigit(c, p, 2, n / 16);
    NextDigit(c, p, 3, n);
  }

  predicate Surrogate(n: nat) {
    0xD800 <= n <= 0xDFFF
  }

  /** A Unicode scalar value written the JSON way (section 7 of RFC 8259). */
  function Written(codepoint: nat): string
    requires codepoint <= 0x10FFFF
  {
    if codepoint < 0x10000 then "\\u" + Digits4(codepoint)
    else
      var rest := codepoint - 0x10000;
      "\\u" + Digits4(0xD800 + rest / 0x400) + ("\\u" + Digits4(0xDC00 + rest % 0x400))
  }

  /** Reading the literal of any scalar value gives its UTF-8, one or two sequences long, whatever follows. */
  lemma LiteralOfWritten(codepoint: nat, c: string, p: nat, end: nat)
    requires codepoint <= 0x10FFFF && !Surrogate(codepoint)
    requires At(c, p, Written(codepoint)) && p + |Written(codepoint)| <= end <= |c|
    ensures Literal(c, p, end) == Some((Utf8(codepoint), |Written(codepoint)|))
  {
    if codepoint < 0x10000 {
      AtSplit(c, p, "\\u", Digits4(codepoint));
      Hex4Digits(c, p + 2, codepoint);
    } else {
      var high, low := 0xD800 + (codepoint - 0x10000) / 0x400, 0xDC00 + (codepoint - 0x10000) % 0x400;
      TwoSequences(high, low, c, p, end);
      assert high % 0x400 == (codepoint - 0x10000) / 0x400;
      assert low % 0x400 == (codepoint - 0x10000) % 0x400;
    }
  }

  lemma TwoSequences(high: nat, low: nat, c: string, p: nat, end: nat)
    requires 0xD800 <= high <= 0xDBFF && 0xDC00 <= low <= 0xDFFF && p + 12 <= end <= |c|
    requires At(c, p, "\\u" + Digits4(high) + ("\\u" + Digits4(low)))
    ensures Literal(c, p, end) == Some((Utf8(0x10000 + (high % 0x400) * 0x400 + low % 0x400), 12))
  {
    AtSplit(c, p, "\\u" + Digits4(high), "\\u" + Digits4(low));
    AtSplit(c, p, "\\u", Digits4(high));
    AtSplit(c, p + 6, "\\u", Digits4(low));
    AtIndices(c, p + 6, "\\u");
    assert c[p + 6 + 0] == '\\' && c[p + 6 + 1] == 'u';
    Hex4Digits(c, p + 2, high);
    Hex4Digits(c, p + 8, low);
  }
}
