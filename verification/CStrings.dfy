/**
 C strings as character sequences: the sequence holds the characters in front of the terminating NUL.
 Holds the two comparisons cJSON uses on member names, and decimal numerals as `%lu` prints them.
 */
module CStrings {

  datatype Option<+T> = None | Some(value: T)

  /** Something kept in a list under a name. */
  datatype Member<+T> = Member(key: string, value: T)

  function LowerChar(c: char): char {
    if 'A' <= c <= 'Z' then (c as int + 32) as char else c
  }

  function Lower(s: string): (r: string)
    ensures |r| == |s|
  {
    seq(|s|, i requires 0 <= i < |s| => LowerChar(s[i]))
  }

  /** What two names have to share to count as equal: the name itself, or the name up to letter case. */
  function Norm(caseSensitive: bool, s: string): (r: string)
    ensures |r| == |s|
  {
    if caseSensitive then s else Lower(s)
  }

  function NormChar(caseSensitive: bool, c: char): char {
    if caseSensitive then c else LowerChar(c)
  }

  /** Lexicographic order; a proper prefix comes first, as its NUL is below every character. */
  predicate Less(a: string, b: string) {
    |b| > 0 && (|a| == 0 || a[0] < b[0] || (a[0] == b[0] && Less(a[1..], b[1..])))
  }

  /** Letters have their small form, and everything else is its own. */
  lemma LowerLetters(c: char, i: nat)
    ensures i < 26 ==> LowerChar("ABCDEFGHIJKLMNOPQRSTUVWXYZ"[i]) == "abcdefghijklmnopqrstuvwxyz"[i]
    ensures c !in "ABCDEFGHIJKLMNOPQRSTUVWXYZ" ==> LowerChar(c) == c
  {
    var capitals := "ABCDEFGHIJKLMNOPQRSTUVWXYZ";
    if 'A' <= c <= 'Z' {
      assert capitals[c as int - 'A' as int] == c;
    }
  }

  /** The first difference decides: the string that ends there, or has the smaller character there, comes first. */
  lemma {:induction false} LessAt(a: string, b: string, i: nat)
    requires i <= |a| && i < |b| && a[..i] == b[..i] && (i == |a| || a[i] < b[i])
    ensures Less(a, b)
    decreases i
  {
    if i > 0 {
      assert a[0] == a[..i][0] == b[0] && a[1..][..i - 1] == a[..i][1..] && b[1..][..i - 1] == b[..i][1..];
      LessAt(a[1..], b[1..], i - 1);
    }
  }

  lemma {:induction false} LessTotal(a: string, b: string)
    ensures Less(a, b) || a == b || Less(b, a)
    ensures Less(a, b) ==> a != b && !Less(b, a)
  {
    if |a| > 0 && |b| > 0 {
      LessTotal(a[1..], b[1..]);
      if a[0] == b[0] && a[1..] == b[1..] {
        assert a == [a[0]] + a[1..] == [b[0]] + b[1..] == b;
      }
    }
  }

  lemma {:induction false} LessTransitive(a: string, b: string, c: string)
    requires Less(a, b) && Less(b, c)
    ensures Less(a, c)
  {
    if |a| > 0 && a[0] == b[0] == c[0] {
      LessTransitive(a[1..], b[1..], c[1..]);
    }
  }

  lemma NormAt(caseSensitive: bool, s: string, i: nat)
    requires i <= |s|
    ensures Norm(caseSensitive, s)[i..] == Norm(caseSensitive, s[i..])
    ensures i < |s| ==> Norm(caseSensitive, s)[i] == NormChar(caseSensitive, s[i])
  {
  }

  lemma LessSkip(x: string, y: string, i: nat)
    requires i < |x| && i < |y| && x[i] == y[i]
    ensures Less(x[i..], y[i..]) == Less(x[i + 1..], y[i + 1..])
    ensures x[..i] == y[..i] ==> x[..i + 1] == y[..i + 1]
  {
    assert x[i..][1..] == x[i + 1..] && y[i..][1..] == y[i + 1..];
  }

  lemma SplitEqual(x: string, y: string, i: nat)
    requires i <= |x| && i <= |y| && x[..i] == y[..i]
    ensures x == y <==> x[i..] == y[i..]
  {
    assert x == x[..i] + x[i..] && y == y[..i] + y[i..];
  }

  /** compare_strings and case_insensitive_strcmp: walk both strings while they agree. Only the sign is used. */
  method CompareStrings(a: string, b: string, caseSensitive: bool) returns (diff: int)
    ensures diff == 0 <==> Norm(caseSensitive, a) == Norm(caseSensitive, b)
    ensures diff < 0 <==> Less(Norm(caseSensitive, a), Norm(caseSensitive, b))
    ensures diff > 0 <==> Less(Norm(caseSensitive, b), Norm(caseSensitive, a))
  {
    ghost var x, y := Norm(caseSensitive, a), Norm(caseSensitive, b);
    LessTotal(x, y);
    var i := 0;
    while i < |a| && i < |b| && NormChar(caseSensitive, a[i]) == NormChar(caseSensitive, b[i])
      invariant i <= |a| && i <= |b|
      invariant x[..i] == y[..i]
      invariant Less(x, y) == Less(x[i..], y[i..])
      invariant Less(y, x) == Less(y[i..], x[i..])
    {
      NormAt(caseSensitive, a, i);
      NormAt(caseSensitive, b, i);
      LessSkip(x, y, i);
      LessSkip(y, x, i);
      i := i + 1;
    }
    NormAt(caseSensitive, a, i);
    NormAt(caseSensitive, b, i);
    SplitEqual(x, y, i);
    if i == |a| {
      diff := if i == |b| then 0 else -1;
    } else if i == |b| {
      diff := 1;
    } else {
      diff := NormChar(caseSensitive, a[i]) as int - NormChar(caseSensitive, b[i]) as int;
    }
  }

  function Digit(d: nat): (c: char)
    requires d < 10
    ensures '0' <= c <= '9' && c as int - '0' as int == d
  {
    (d + '0' as int) as char
  }

  predicate IsDigit(c: char) {
    '0' <= c <= '9'
  }

  /** The numeral `%lu` prints: no sign, no leading zero. */
  function Decimal(n: nat): (s: string)
    ensures |s| > 0
    ensures forall c :: c in s ==> IsDigit(c)
    ensures s[0] == '0' ==> s == "0"
    ensures s[0] == '0' <==> n == 0
  {
    if n < 10 then [Digit(n)] else Decimal(n / 10) + [Digit(n % 10)]
  }

  /** The value of a digit string, most significant digit first, continuing from `acc`. */
  function DigitsValue(acc: int, s: string): int
    decreases |s|
  {
    if |s| == 0 then acc else DigitsValue(10 * acc + (s[0] as int - '0' as int), s[1..])
  }

  lemma {:induction false} DigitsValueAppend(acc: int, s: string, c: char)
    ensures DigitsValue(acc, s + [c]) == 10 * DigitsValue(acc, s) + (c as int - '0' as int)
    decreases |s|
  {
    if |s| == 0 {
      assert (s + [c])[1..] == [];
    } else {
      assert (s + [c])[1..] == s[1..] + [c];
      DigitsValueAppend(10 * acc + (s[0] as int - '0' as int), s[1..], c);
    }
  }

  lemma {:induction false} DecimalValue(n: nat)
    ensures DigitsValue(0, Decimal(n)) == n
  {
    if n >= 10 {
      DecimalValue(n / 10);
      DigitsValueAppend(0, Decimal(n / 10), Digit(n % 10));
    } else {
      assert Decimal(n)[1..] == [];
    }
  }

  /** `text` stands in `c` from index `o` on. */
  predicate At(c: string, o: nat, text: string) {
    o + |text| <= |c| && AtAfter(c, o, text, 0)
  }

  predicate AtAfter(c: string, o: nat, text: string, i: nat)
    requires o + |text| <= |c| && i <= |text|
    decreases |text| - i
  {
    i == |text| || (c[o + i] == text[i] && AtAfter(c, o, text, i + 1))
  }

  lemma AtIndices(c: string, o: nat, text: string)
    requires At(c, o, text)
    ensures forall i :: 0 <= i < |text| ==> c[o + i] == text[i]
  {
    forall i | 0 <= i < |text| ensures c[o + i] == text[i] {
      AtIndex(c, o, text, 0, i);
    }
  }

  lemma {:induction false} AtIndex(c: string, o: nat, text: string, i: nat, k: nat)
    requires o + |text| <= |c| && i <= k < |text| && AtAfter(c, o, text, i)
    ensures c[o + k] == text[k]
    decreases k - i
  {
    if i < k {
      AtIndex(c, o, text, i + 1, k);
    }
  }

  lemma AtFrom(c: string, o: nat, text: string)
    requires o + |text| <= |c| && forall i :: 0 <= i < |text| ==> c[o + i] == text[i]
    ensures At(c, o, text)
  {
    AtRest(c, o, text, 0);
  }

  lemma {:induction false} AtRest(c: string, o: nat, text: string, i: nat)
    requires o + |text| <= |c| && i <= |text| && forall k :: i <= k < |text| ==> c[o + k] == text[k]
    ensures AtAfter(c, o, text, i)
    decreases |text| - i
  {
    if i < |text| {
      assert c[o + i] == text[i];
      AtRest(c, o, text, i + 1);
    }
  }

  lemma AtSplit(c: string, o: nat, a: string, b: string)
    requires At(c, o, a + b)
    ensures At(c, o, a) && At(c, o + |a|, b)
  {
    AtIndices(c, o, a + b);
    forall i | 0 <= i < |a| ensures c[o + i] == a[i] {
      assert (a + b)[i] == a[i];
    }
    forall i | 0 <= i < |b| ensures c[o + |a| + i] == b[i] {
      assert (a + b)[|a| + i] == b[i] && o + (|a| + i) == o + |a| + i;
    }
    AtFrom(c, o, a);
    AtFrom(c, o + |a|, b);
  }

  lemma AtChar(c: string, o: nat, text: string)
    requires At(c, o, text) && text != ""
    ensures o < |c| && c[o] == text[0]
  {
    assert c[o + 0] == text[0];
  }

  lemma AtJoin(c: string, o: nat, a: string, b: string)
    requires At(c, o, a) && At(c, o + |a|, b)
    ensures At(c, o, a + b)
  {
    AtIndices(c, o, a);
    AtIndices(c, o + |a|, b);
    forall i | 0 <= i < |a + b| ensures c[o + i] == (a + b)[i] {
      if i >= |a| {
        assert c[o + |a| + (i - |a|)] == b[i - |a|];
      }
    }
    AtFrom(c, o, a + b);
  }

  lemma AtJoin3(c: string, o: nat, a: string, b: string, d: string)
    requires At(c, o, a) && At(c, o + |a|, b) && At(c, o + |a| + |b|, d)
    ensures At(c, o, a + b + d)
  {
    AtJoin(c, o, a, b);
    AtJoin(c, o, a + b, d);
  }

  lemma AtJoin4(c: string, o: nat, a: string, b: string, d: string, e: string)
    requires At(c, o, a) && At(c, o + |a|, b) && At(c, o + |a| + |b|, d) && At(c, o + |a| + |b| + |d|, e)
    ensures At(c, o, a + b + d + e)
  {
    AtJoin3(c, o, a, b, d);
    AtJoin(c, o, a + b + d, e);
  }

  lemma AtOne(c: string, o: nat, x: char)
    requires o < |c| && c[o] == x
    ensures At(c, o, [x])
  {
    AtFrom(c, o, [x]);
  }

  lemma AtNothing(c: string, o: nat)
    requires o <= |c|
    ensures At(c, o, "")
  {
    AtFrom(c, o, "");
  }
}
