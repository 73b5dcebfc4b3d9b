/** crc64.c and precalc/crc64_table.c: the left-shifting 64-bit CRC and the generator of its table. */
module Crc64 {

  type Word = bv64

  type Byte = b: Word | b <= 0xFF

  const START_ECMA: Word := 0
  const START_WE: Word := 0xFFFF_FFFF_FFFF_FFFF

  // ---------- The shift register ----------

  function Xor(x: Word, y: Word): Word { x ^ y }

  predicate Out(crc: Word) { crc & 0x8000_0000_0000_0000 != 0 }

  function Twice(crc: Word): Word { crc << 1 }

  /** CRC_POLY_64. */
  const POLY: Word := 0x42F0_E1EB_A9EA_3693

  function Step(crc: Word): Word {
    if Out(crc) then Xor(Twice(crc), POLY) else Twice(crc)
  }

  function Steps(crc: Word, n: nat): Word
    decreases n
  {
    if n == 0 then crc else Steps(Step(crc), n - 1)
  }

  function ByteBits(): nat { 8 }

  /** A byte where the register takes it in. */
  function Top(b: Byte): Word { b << 56 }

  /** One byte, its most significant bit first. */
  function Absorb(crc: Word, b: Byte): Word {
    Steps(Xor(crc, Top(b)), ByteBits())
  }

  function Fold(crc: Word, s: seq<Byte>): Word {
    if s == [] then crc else Absorb(Fold(crc, s[..|s| - 1]), s[|s| - 1])
  }

  lemma OutOfXor(x: Word, y: Word)
    ensures Out(Xor(x, y)) <==> Out(x) != Out(y)
  {
    if Out(x) {
      if Out(y) {
      } else {
      }
    } else {
    }
  }

  lemma TwiceOfXor(x: Word, y: Word)
    ensures Twice(Xor(x, y)) == Xor(Twice(x), Twice(y))
  {
  }

  lemma XorAssociates(x: Word, y: Word, z: Word)
    ensures Xor(Xor(x, y), z) == Xor(x, Xor(y, z))
  {
    assert (x ^ y) ^ z == x ^ (y ^ z);
  }

  lemma XorCommutes(x: Word, y: Word)
    ensures Xor(x, y) == Xor(y, x)
  {
  }

  lemma XorBack(x: Word, p: Word)
    ensures Xor(Xor(x, p), p) == x
  {
  }

  lemma XorOne(x: Word, y: Word, p: Word)
    ensures Xor(Xor(x, p), y) == Xor(Xor(x, y), p) == Xor(x, Xor(y, p))
  {
    XorAssociates(x, p, y);
    XorCommutes(p, y);
    XorAssociates(x, y, p);
  }

  lemma XorBoth(x: Word, y: Word, p: Word)
    ensures Xor(Xor(x, p), Xor(y, p)) == Xor(x, y)
  {
    XorOne(x, Xor(y, p), p);
    XorAssociates(x, Xor(y, p), p);
    XorBack(y, p);
  }

  lemma StepIsLinear(x: Word, y: Word)
    ensures Step(Xor(x, y)) == Xor(Step(x), Step(y))
  {
    OutOfXor(x, y);
    TwiceOfXor(x, y);
    if Out(x) && Out(y) {
      XorBoth(Twice(x), Twice(y), POLY);
    } else {
      XorOne(Twice(x), Twice(y), POLY);
    }
  }

  lemma {:induction false} StepsAreLinear(x: Word, y: Word, n: nat)
    ensures Steps(Xor(x, y), n) == Xor(Steps(x, n), Steps(y, n))
    decreases n
  {
    if n > 0 {
      StepIsLinear(x, y);
      StepsAreLinear(Step(x), Step(y), n - 1);
    }
  }

  /** The polynomial is odd, so the lowest bit of the register tells whether it was just subtracted. */
  lemma LowBitTells(x: Word)
    ensures Xor(Twice(x), POLY) & 1 == 1 && Twice(x) & 1 == 0
  {
    PolyIsOdd(Twice(x), POLY);
  }

  lemma PolyIsOdd(x: Word, p: Word)
    requires x & 1 == 0 && p & 1 == 1
    ensures Xor(x, p) & 1 == 1
  {
  }

  lemma TwiceIsInjective(x: Word, y: Word)
    requires Out(x) == Out(y)
    requires Twice(x) == Twice(y)
    ensures x == y
  {
  }

  lemma Cancel(x: Word, y: Word, z: Word)
    requires Xor(x, z) == Xor(y, z) || Xor(z, x) == Xor(z, y)
    ensures x == y
  {
  }

  lemma StepIsInjective(x: Word, y: Word)
    requires Step(x) == Step(y)
    ensures x == y
  {
    LowBitTells(x);
    LowBitTells(y);
    if Out(x) {
      Cancel(Twice(x), Twice(y), POLY);
    }
    TwiceIsInjective(x, y);
  }

  lemma {:induction false} StepsAreInjective(x: Word, y: Word, n: nat)
    requires Steps(x, n) == Steps(y, n)
    ensures x == y
    decreases n
  {
    if n > 0 {
      StepsAreInjective(Step(x), Step(y), n - 1);
      StepIsInjective(x, y);
    }
  }

  lemma {:induction false} StepsJoin(x: Word, m: nat, n: nat)
    ensures Steps(Steps(x, m), n) == Steps(x, m + n)
    decreases m
  {
    if m > 0 {
      StepsJoin(Step(x), m - 1, n);
    }
  }

  /** With the top byte clear, eight steps only shift. */
  lemma ClearShifts(x: Word)
    requires x & 0xFF00_0000_0000_0000 == 0
    ensures Steps(x, ByteBits()) == x << 8
  {
    var x1, x2, x3, x4, x5, x6, x7, x8 := ClearBits(x);
    var n := ByteBits() - 8;
    OneStep(x7, x8, x8, n);
    OneStep(x6, x7, x8, n + 1);
    OneStep(x5, x6, x8, n + 2);
    OneStep(x4, x5, x8, n + 3);
    OneStep(x3, x4, x8, n + 4);
    OneStep(x2, x3, x8, n + 5);
    OneStep(x1, x2, x8, n + 6);
    OneStep(x, x1, x8, n + 7);
  }

  lemma OneStep(x: Word, x': Word, end: Word, m: nat)
    requires x' == Step(x) && Steps(x', m) == end
    ensures Steps(x, m + 1) == end
  {
  }

  lemma ClearBits(x: Word)
    returns (x1: Word, x2: Word, x3: Word, x4: Word, x5: Word, x6: Word, x7: Word, x8: Word)
    requires x & 0xFF00_0000_0000_0000 == 0
    ensures x1 == Step(x) && x2 == Step(x1) && x3 == Step(x2) && x4 == Step(x3)
    ensures x5 == Step(x4) && x6 == Step(x5) && x7 == Step(x6) && x8 == Step(x7)
    ensures x8 == x << 8
  {
    x1, x2, x3, x4, x5, x6, x7, x8 := x << 1, x << 2, x << 3, x << 4, x << 5, x << 6, x << 7, x << 8;
  }

  // ---------- The table ----------

  function Entry(b: Byte): Word {
    Steps(Top(b), ByteBits())
  }

  function Below(x: Word): Word { x & 0x00FF_FFFF_FFFF_FFFF }

  /** What the table is asked for. */
  function Index(crc: Word, b: Byte): Byte { ((crc >> 56) ^ b) & 0xFF }

  lemma Parts(crc: Word, b: Byte)
    ensures Xor(crc, Top(b)) == Xor(Below(crc), Top(Index(crc, b)))
    ensures Below(crc) & 0xFF00_0000_0000_0000 == 0 && Below(crc) << 8 == crc << 8
  {
  }

  /** Eight steps are one shift by a byte and one lookup. */
  lemma LookupIsAbsorb(crc: Word, b: Byte)
    ensures Xor(crc << 8, Entry(Index(crc, b))) == Absorb(crc, b)
  {
    Parts(crc, b);
    StepsAreLinear(Below(crc), Top(Index(crc, b)), ByteBits());
    ClearShifts(Below(crc));
  }

  function ByteOf(i: nat): Byte
    requires i < 256
  {
    i as Word
  }

  function Slot(b: Byte): (i: nat)
    ensures i < 256 && ByteOf(i) == b
  {
    b as nat
  }

  predicate Filled(tab: seq<Word>, n: nat) {
    |tab| == 256 && n <= 256 && forall i: nat :: i < n ==> tab[i] == Entry(ByteOf(i))
  }

  /** What the generator makes of the register: it looks at the byte, but does not mix it in. */
  function Beside(crc: Word, c: Word): Word {
    if Out(Xor(crc, c)) then Xor(Twice(crc), POLY) else Twice(crc)
  }

  lemma SideBySide(crc: Word, c: Word)
    ensures Xor(Beside(crc, c), Twice(c)) == Step(Xor(crc, c))
  {
    TwiceOfXor(crc, c);
    XorOne(Twice(crc), Twice(c), POLY);
  }

  function Doubled(x: Word, n: nat): Word
    decreases n
  {
    if n == 0 then x else Doubled(Twice(x), n - 1)
  }

  /** After eight shifts nothing of the byte is left. */
  lemma ByteRunsOut(b: Byte)
    ensures Doubled(Top(b), ByteBits()) == 0
  {
    var t := Top(b);
    var t1, t2, t3, t4, t5, t6, t7 := b << 57, b << 58, b << 59, b << 60, b << 61, b << 62, b << 63;
    var n := ByteBits() - 8;
    LastShift(b, t7);
    DoubledMore(t7, 0, n);
    DoubledMore(t6, t7, n + 1);
    DoubledMore(t5, t6, n + 2);
    DoubledMore(t4, t5, n + 3);
    DoubledMore(t3, t4, n + 4);
    DoubledMore(t2, t3, n + 5);
    DoubledMore(t1, t2, n + 6);
    DoubledMore(t, t1, n + 7);
  }

  lemma LastShift(b: Byte, t: Word)
    requires t == b << 63
    ensures Twice(t) == 0
  {
  }

  lemma DoubledMore(x: Word, x': Word, n: nat)
    requires x' == Twice(x) && Doubled(x', n) == 0
    ensures Doubled(x, n + 1) == 0
  {
  }

  lemma XorZero(x: Word)
    ensures Xor(0, x) == x && Xor(x, 0) == x
  {
  }

  method TableEntry(i: nat) returns (crc: Word)
    requires i < 256
    ensures crc == Entry(ByteOf(i))
  {
    crc := 0;
    var c: Word := Top(ByteOf(i));
    XorZero(c);
    ByteRunsOut(ByteOf(i));
    var j := 0;
    while j < 8
      invariant j <= 8 && Steps(Xor(crc, c), ByteBits() - j) == Entry(ByteOf(i)) && Doubled(c, ByteBits() - j) == 0
    {
      SideBySide(crc, c);
      crc := Beside(crc, c);
      c := Twice(c);
      j := j + 1;
    }
    XorZero(crc);
  }

  /** init_crc64_tab. */
  method InitTable(tab: array<Word>)
    requires tab.Length == 256
    modifies tab
    ensures Filled(tab[..], 256)
  {
    var i := 0;
    while i < 256
      invariant i <= 256 && Filled(tab[..], i)
    {
      var e := TableEntry(i);
      tab[i] := e;
      i := i + 1;
    }
  }

  /** update_crc_64. */
  method Update(tab: seq<Word>, crc: Word, b: Byte) returns (r: Word)
    requires Filled(tab, 256)
    ensures r == Absorb(crc, b)
  {
    LookupIsAbsorb(crc, b);
    r := Xor(crc << 8, tab[Slot(Index(crc, b))]);
  }

  /** The loop that crc_64_ecma and crc_64_we share, from their two start values. */
  method Run(tab: seq<Word>, start: Word, input: array?<Byte>, count: nat) returns (crc: Word)
    requires Filled(tab, 256) && (input != null ==> count <= input.Length)
    ensures crc == if input == null then start else Fold(start, input[..count])
  {
    crc := start;
    if input != null {
      var a := 0;
      while a < count
        invariant a <= count && crc == Fold(start, input[..a])
      {
        crc := Update(tab, crc, input[a]);
        assert input[..a + 1][..a] == input[..a];
        a := a + 1;
      }
    }
  }

  method Ecma(tab: seq<Word>, input: array?<Byte>, count: nat) returns (crc: Word)
    requires Filled(tab, 256) && (input != null ==> count <= input.Length)
    ensures crc == if input == null then 0 else Fold(0, input[..count])
  {
    crc := Run(tab, START_ECMA, input, count);
  }

  method We(tab: seq<Word>, input: array?<Byte>, count: nat) returns (crc: Word)
    requires Filled(tab, 256) && (input != null ==> count <= input.Length)
    ensures crc == Xor(if input == null then 0xFFFF_FFFF_FFFF_FFFF else Fold(0xFFFF_FFFF_FFFF_FFFF, input[..count]), 0xFFFF_FFFF_FFFF_FFFF)
  {
    crc := Run(tab, START_WE, input, count);
    crc := Xor(crc, START_WE);
  }

  // ---------- Laws ----------

  /** The polynomial of ECMA-182, the coefficient of x^i at bit i. */
  lemma Polynomial()
    ensures POLY ==
      (1 << 62) | (1 << 57) | (1 << 55) | (1 << 54) | (1 << 53) | (1 << 52) | (1 << 47) | (1 << 46) | (1 << 45) | (1 << 40) | (1 << 39)
      | (1 << 38) | (1 << 37) | (1 << 35) | (1 << 33) | (1 << 32) | (1 << 31) | (1 << 29) | (1 << 27) | (1 << 24) | (1 << 23) | (1 << 22)
      | (1 << 21) | (1 << 19) | (1 << 17) | (1 << 13) | (1 << 12) | (1 << 10) | (1 << 9) | (1 << 7) | (1 << 4) | (1 << 1) | (1 << 0)
  {
  }

  lemma {:induction false} FoldJoin(crc: Word, s: seq<Byte>, t: seq<Byte>)
    ensures Fold(crc, s + t) == Fold(Fold(crc, s), t)
    decreases |t|
  {
    if t == [] {
      assert s + t == s;
    } else {
      assert (s + t)[..|s + t| - 1] == s + t[..|t| - 1];
      FoldJoin(crc, s, t[..|t| - 1]);
    }
  }

  lemma {:induction false} FoldInjective(c: Word, d: Word, s: seq<Byte>)
    requires Fold(c, s) == Fold(d, s)
    ensures c == d
    decreases |s|
  {
    if s != [] {
      var m, b := s[..|s| - 1], s[|s| - 1];
      StepsAreInjective(Xor(Fold(c, m), Top(b)), Xor(Fold(d, m), Top(b)), ByteBits());
      Cancel(Fold(c, m), Fold(d, m), Top(b));
      FoldInjective(c, d, m);
    }
  }

  function Down(x: Word): Word { x >> 8 }

  /** Up to eight bytes as the upper bytes of a word, the first one on top. */
  function Load(s: seq<Byte>): Word {
    if s == [] then 0 else Xor(Top(s[0]), Down(Load(s[1..])))
  }

  /** The lowest `n` bytes are zero. */
  predicate Free(x: Word, n: nat)
    decreases n
  {
    n == 0 || (x & 0xFF == 0 && Free(Down(x), n - 1))
  }

  lemma {:induction false} FreeXor(x: Word, y: Word, n: nat)
    requires Free(x, n) && Free(y, n)
    ensures Free(Xor(x, y), n)
    decreases n
  {
    if n > 0 {
      FreeXor(Down(x), Down(y), n - 1);
      DownOfXor(x, y);
    }
  }

  lemma DownOfXor(x: Word, y: Word)
    ensures Down(Xor(x, y)) == Xor(Down(x), Down(y))
    ensures x & 0xFF == 0 && y & 0xFF == 0 ==> Xor(x, y) & 0xFF == 0
  {
  }

  lemma TopIsFree(b: Byte, n: nat)
    requires n <= 7
    ensures Free(Top(b), n)
  {
    var t, t1, t2, t3, t4, t5, t6, t7 := TopBytes(b);
    var m := ByteBits() - 8;
    FreeMore(t6, t7, m);
    FreeMore(t5, t6, m + 1);
    FreeMore(t4, t5, m + 2);
    FreeMore(t3, t4, m + 3);
    FreeMore(t2, t3, m + 4);
    FreeMore(t1, t2, m + 5);
    FreeMore(t, t1, m + 6);
    FreeLess(t, m + 7, n);
  }

  lemma TopBytes(b: Byte)
    returns (t: Word, t1: Word, t2: Word, t3: Word, t4: Word, t5: Word, t6: Word, t7: Word)
    ensures t == Top(b) && t1 == Down(t) && t2 == Down(t1) && t3 == Down(t2)
    ensures t4 == Down(t3) && t5 == Down(t4) && t6 == Down(t5) && t7 == Down(t6)
    ensures t & 0xFF == 0 && t1 & 0xFF == 0 && t2 & 0xFF == 0 && t3 & 0xFF == 0
    ensures t4 & 0xFF == 0 && t5 & 0xFF == 0 && t6 & 0xFF == 0
  {
    t, t1, t2, t3 := b << 56, b << 48, b << 40, b << 32;
    t4, t5, t6, t7 := b << 24, b << 16, b << 8, b;
  }

  lemma FreeMore(x: Word, x': Word, m: nat)
    requires x' == Down(x) && x & 0xFF == 0 && Free(x', m)
    ensures Free(x, m + 1)
  {
  }

  lemma {:induction false} FreeLess(x: Word, m: nat, n: nat)
    requires Free(x, m) && n <= m
    ensures Free(x, n)
    decreases n
  {
    if n > 0 {
      FreeLess(Down(x), m - 1, n - 1);
    }
  }

  lemma {:induction false} LoadIsFree(s: seq<Byte>)
    requires |s| <= 8
    ensures Free(Load(s), 8 - |s|)
    decreases |s|
  {
    if s == [] {
      ZeroIsFree(8);
    } else {
      LoadIsFree(s[1..]);
      TopIsFree(s[0], 8 - |s|);
      FreeXor(Top(s[0]), Down(Load(s[1..])), 8 - |s|);
    }
  }

  lemma {:induction false} ZeroIsFree(n: nat)
    ensures Free(0, n)
    decreases n
  {
    if n > 0 {
      ZeroIsFree(n - 1);
    }
  }

  lemma UpAgain(y: Word)
    requires y & 0xFF == 0
    ensures Steps(Down(y), ByteBits()) == y
  {
    DownIsClear(y, Down(y));
    ClearShifts(Down(y));
  }

  lemma DownIsClear(y: Word, d: Word)
    requires y & 0xFF == 0 && d == Down(y)
    ensures d & 0xFF00_0000_0000_0000 == 0 && d << 8 == y
  {
  }

  /** The register takes up to eight bytes as if they had all been there from the start. */
  lemma {:induction false} FoldIsLoad(crc: Word, s: seq<Byte>)
    requires |s| <= 8
    ensures Fold(crc, s) == Steps(Xor(crc, Load(s)), ByteBits() * |s|)
    decreases |s|
  {
    if s == [] {
      XorZero(crc);
    } else {
      var b, t := s[0], s[1..];
      FoldFirst(crc, s);
      FoldIsLoad(Absorb(crc, b), t);
      LoadIsFree(t);
      var y := Load(t);
      UpAgain(y);
      StepsAreLinear(Xor(crc, Top(b)), Down(y), ByteBits());
      XorAssociates(crc, Top(b), Down(y));
      StepsJoin(Xor(crc, Load(s)), ByteBits(), ByteBits() * |t|);
    }
  }

  lemma FoldFirst(crc: Word, s: seq<Byte>)
    requires s != []
    ensures Fold(crc, s) == Fold(Absorb(crc, s[0]), s[1..])
  {
    var a := [s[0]];
    assert s == a + s[1..];
    assert a[..|a| - 1] == [];
    FoldJoin(crc, a, s[1..]);
    assert Fold(crc, a) == Absorb(crc, s[0]);
  }

  lemma {:induction false} LoadInjective(s: seq<Byte>, t: seq<Byte>)
    requires |s| == |t| <= 8 && Load(s) == Load(t)
    ensures s == t
    decreases |s|
  {
    if s != [] {
      LoadIsFree(s[1..]);
      LoadIsFree(t[1..]);
      TopIsSeparate(s[0], Load(s[1..]), t[0], Load(t[1..]));
      LoadInjective(s[1..], t[1..]);
      assert s == [s[0]] + s[1..] && t == [t[0]] + t[1..];
    }
  }

  lemma TopIsSeparate(a: Byte, x: Word, b: Byte, y: Word)
    requires Xor(Top(a), Down(x)) == Xor(Top(b), Down(y)) && x & 0xFF == 0 && y & 0xFF == 0
    ensures a == b && x == y
  {
  }

  lemma {:induction false} ZeroStays(n: nat)
    ensures Steps(0, n) == 0
    decreases n
  {
    if n > 0 {
      StepOfZero();
      ZeroStays(n - 1);
    }
  }

  lemma StepOfZero()
    ensures Step(0) == 0
  {
  }

  /** Eight more bytes bring the register to zero exactly when they are its value, the top byte first. */
  lemma ResidueZeroIff(start: Word, s: seq<Byte>, t: seq<Byte>)
    requires |t| == 8
    ensures Fold(start, s + t) == 0 <==> Load(t) == Fold(start, s)
  {
    var crc, n := Fold(start, s), ByteBits() * |t|;
    FoldJoin(start, s, t);
    FoldIsLoad(crc, t);
    ZeroStays(n);
    if Steps(Xor(crc, Load(t)), n) == 0 {
      StepsAreInjective(Xor(crc, Load(t)), 0, n);
    }
    XorIsZeroIff(crc, Load(t));
  }

  lemma XorIsZeroIff(x: Word, y: Word)
    ensures Xor(x, y) == 0 <==> x == y
  {
    XorSelf(y);
    if Xor(x, y) == 0 {
      Cancel(x, y, y);
    }
  }

  lemma XorSelf(x: Word)
    ensures Xor(x, x) == 0
  {
  }

  /** Messages of the same length that differ only within eight adjacent bytes never have the same value. */
  lemma AdjacentBytesDetected(start: Word, head: seq<Byte>, s: seq<Byte>, t: seq<Byte>, tail: seq<Byte>)
    requires |s| == |t| <= 8 && s != t
    ensures Fold(start, head + s + tail) != Fold(start, head + t + tail)
  {
    if Fold(start, head + s + tail) == Fold(start, head + t + tail) {
      FoldJoin(start, head + s, tail);
      FoldJoin(start, head + t, tail);
      FoldInjective(Fold(start, head + s), Fold(start, head + t), tail);
      FoldJoin(start, head, s);
      FoldJoin(start, head, t);
      var crc := Fold(start, head);
      FoldIsLoad(crc, s);
      FoldIsLoad(crc, t);
      StepsAreInjective(Xor(crc, Load(s)), Xor(crc, Load(t)), ByteBits() * |s|);
      Cancel(Load(s), Load(t), crc);
      LoadInjective(s, t);
    }
  }
}
