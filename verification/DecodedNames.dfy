/** What decode_pointer_inplace does to a name it does not restore: it comes out heavier, so that among several names there is
    one that none of the others is turned into. */
module DecodedNames {
  import opened CStrings
  import opened JsonPointer
  import opened PointerDecode
  import opened JsonPatchLimits

  /** The name as it is after it was written into a pointer and decoded in place. */
  function Decoded(name: string): string {
    DecodeInPlace(Encode(name))
  }

  function Rank(c: char): nat {
    if c == '~' then 2 else if c == '0' then 1 else 0
  }

  function Power(n: nat): (r: nat)
    ensures r > 0
  {
    if n == 0 then 1 else 3 * Power(n - 1)
  }

  /** The ranks of the characters as the digits of a number. */
  function Weight(s: string): (r: nat)
    ensures r < Power(|s|)
  {
    if s == "" then 0
    else
      WeightDigit(Rank(s[0]), Power(|s| - 1));
      Rank(s[0]) * Power(|s| - 1) + Weight(s[1..])
  }

  lemma WeightDigit(d: nat, p: nat)
    ensures d <= 2 ==> d * p <= 2 * p
    ensures d * p >= 0
  {
  }

  lemma {:induction false} WeightOfCase(s: string)
    ensures Weight(Lower(s)) == Weight(s)
  {
    if s != "" {
      assert Lower(s)[1..] == Lower(s[1..]);
      WeightOfCase(s[1..]);
    }
  }

  /** The first character that differs decides. */
  lemma {:induction false} FirstDecides(a: string, b: string, i: nat)
    requires |a| == |b| && i < |a| && a[..i] == b[..i] && Rank(a[i]) < Rank(b[i])
    ensures Weight(a) < Weight(b)
  {
    var p := Power(|a| - 1);
    if i == 0 {
      DigitMore(Rank(a[0]), Rank(b[0]), p);
    } else {
      assert a[0] == a[..i][0] == b[..i][0] == b[0];
      assert a[1..][..i - 1] == a[..i][1..] == b[..i][1..] == b[1..][..i - 1];
      FirstDecides(a[1..], b[1..], i - 1);
    }
  }

  lemma DigitMore(d: nat, e: nat, p: nat)
    requires d < e
    ensures d * p + p <= e * p
  {
    assert (d + 1) * p <= e * p;
  }

  lemma {:induction false} FirstDifference(a: string, b: string) returns (i: nat)
    requires |a| == |b| && a != b
    ensures i < |a| && a[..i] == b[..i] && a[i] != b[i]
  {
    if a[0] != b[0] {
      i := 0;
    } else {
      assert a == [a[0]] + a[1..] && b == [b[0]] + b[1..];
      var k := FirstDifference(a[1..], b[1..]);
      i := k + 1;
      assert a[..i] == [a[0]] + a[1..][..k] && b[..i] == [b[0]] + b[1..][..k];
    }
  }

  lemma DecodedIs(name: string)
    ensures |Decoded(name)| == |name| && Decoded(name) == Buffer(name, |name|)[..|name|]
  {
    DecodeEncoded(name, 0);
    assert Buffer(name, 0) == Encode(name);
  }

  /** The name comes back right up to `i`. */
  predicate RightUpTo(name: string, i: nat) {
    i < |name| && |Decoded(name)| == |name| && Decoded(name)[..i] == name[..i]
  }

  lemma RightAt(name: string, i: nat, k: nat)
    requires RightUpTo(name, i) && k < i
    ensures Decoded(name)[k] == name[k] == name[..i][k]
  {
    assert Decoded(name)[..i][k] == name[..i][k];
  }

  lemma SlashShows(name: string, q: nat)
    requires q < |name| && name[q] == '/' && (q > 0 ==> name[q - 1] != '/')
    ensures |Decoded(name)| == |name| && Decoded(name)[q] != '/'
  {
    DecodedIs(name);
    assert Encode(name)[q] in Encode(name);
  }

  /** Where the decoded name first differs there is no slash in front, and the encoded character stands there. */
  lemma NoSlashBefore(name: string, i: nat)
    requires RightUpTo(name, i)
    ensures '/' !in name[..i]
    ensures Decoded(name)[i] != name[i] ==> name[i] != '~' && Decoded(name)[i] == Encode(name)[i]
  {
    DecodedIs(name);
    if '/' in name[..i] {
      var q := FirstSlash(name[..i]);
      RightAt(name, i, q);
      if q > 0 {
        RightAt(name, i, q - 1);
      }
      SlashShows(name, q);
      assert false;
    }
    if i > 0 {
      RightAt(name, i, i - 1);
      assert name[..i][i - 1] in name[..i];
    }
  }

  /** The character that stands there is a '~' or a '0', and the name's own is of less rank. */
  lemma RankGrows(name: string, i: nat)
    requires RightUpTo(name, i) && Decoded(name)[i] != name[i]
    ensures Rank(name[i]) < Rank(Decoded(name)[i])
  {
    NoSlashBefore(name, i);
    var p, e := name[..i], Encode(name[..i]);
    EncodedPrefix(name, i);
    EncodedStep(name, i);
    EncodedPrefix(name, i + 1);
    EncodedAt(name, i);
    PrefixReads(name, i);
    assert p[..i] == p;
    Overhang(p, p, i, true);
    if e == p {
      assert Encode(name)[i] == EncodeChar(name[i])[0];
    } else {
      assert TildeOrZero(e[i]) && Encode(name)[i] == e[i];
    }
  }

  lemma PrefixReads(name: string, i: nat)
    requires RightUpTo(name, i)
    ensures |Encode(name[..i])| >= i
    ensures forall k :: 0 <= k < i ==> name[..i][k] == if name[..i][k] == '~' then '~' else Encode(name[..i])[k]
  {
    DecodedIs(name);
    NoSlashBefore(name, i);
    EncodedPrefix(name, i);
    var p, e := name[..i], Encode(name[..i]);
    forall k | 0 <= k < i ensures p[k] == if p[k] == '~' then '~' else e[k] {
      RightAt(name, i, k);
      assert Encode(name)[k] == e[k];
      if k > 0 {
        RightAt(name, i, k - 1);
        assert p[k - 1] in p;
      }
    }
  }

  /** A name that is not restored comes out heavier. */
  lemma DecodedHeavier(name: string)
    requires !Restorable(name)
    ensures Weight(Decoded(name)) > Weight(name)
  {
    DecodedIs(name);
    DecodeUndoesEncodeIff(name);
    var i := FirstDifference(name, Decoded(name));
    RankGrows(name, i);
    FirstDecides(name, Decoded(name), i);
  }

  /** Of the names that are not restored, one is not what another one is turned into, not even up to letter case. */
  lemma NotReached(name: string, other: string)
    requires !Restorable(other) && Weight(name) <= Weight(other)
    ensures Lower(Decoded(other)) != Lower(name)
  {
    DecodedHeavier(other);
    WeightOfCase(Decoded(other));
    WeightOfCase(name);
  }

  lemma {:induction false} EncodedCase(name: string)
    ensures Encode(Lower(name)) == Lower(Encode(name))
  {
    if name != "" {
      assert Lower(name)[1..] == Lower(name[1..]);
      EncodedCase(name[1..]);
      assert EncodeChar(LowerChar(name[0])) == Lower(EncodeChar(name[0]));
      LowerJoin(EncodeChar(name[0]), Encode(name[1..]));
    }
  }

  lemma LowerJoin(a: string, b: string)
    ensures Lower(a + b) == Lower(a) + Lower(b)
  {
  }

  /** Decoding pays no regard to letter case. */
  lemma DecodedCase(name: string)
    ensures Decoded(Lower(name)) == Lower(Decoded(name))
  {
    DecodedIs(name);
    DecodedIs(Lower(name));
    EncodedCase(name);
    var a, b := Decoded(Lower(name)), Lower(Decoded(name));
    forall i | 0 <= i < |name| ensures a[i] == b[i] {
      assert Encode(Lower(name))[i] == LowerChar(Encode(name)[i]);
    }
  }

  lemma RestorableCase(a: string, b: string)
    requires Lower(a) == Lower(b) && Restorable(a)
    ensures Restorable(b)
  {
    DecodedCase(a);
    DecodedCase(b);
    DecodedUpToCase(a, false);
    DecodedUpToCase(b, false);
  }

  /** None of the names that end a path turns into `name`: not one that is restored, and not one that is as heavy. */
  lemma Missed(name: string, other: string)
    requires !Restorable(name) && (!Restorable(other) ==> Weight(name) <= Weight(other))
    ensures Lower(Decoded(other)) != Lower(name)
  {
    if Restorable(other) {
      DecodeUndoesEncodeIff(other);
      if Lower(other) == Lower(name) {
        RestorableCase(other, name);
      }
    } else {
      NotReached(name, other);
    }
  }

  lemma {:induction false} Lightest(names: set<string>) returns (name: string)
    requires names != {}
    ensures name in names && forall n :: n in names ==> Weight(name) <= Weight(n)
    decreases names
  {
    var one :| one in names;
    var rest := names - {one};
    name := one;
    if rest != {} {
      var other := Lightest(rest);
      if Weight(other) < Weight(one) {
        name := other;
      }
      forall n | n in names ensures Weight(name) <= Weight(n) {
        if n != one {
          assert n in rest;
        }
      }
    } else {
      forall n | n in names ensures n == one {
        assert n == one || n in rest;
      }
    }
  }
}
