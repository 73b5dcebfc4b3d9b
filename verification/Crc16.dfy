/** crc16.c: the reflected 16-bit CRC, whose table stands for eight steps of a shift register. */
module Crc16 {

  type Word = bv16

  type Byte = b: Word | b <= 0xFF

  const START_16: Word := 0
  const START_MODBUS: Word := 0xFFFF

  // ---------- The shift register ----------

  function Xor(x: Word, y: Word): Word { x ^ y }

  predicate Out(crc: Word) { crc & 1 == 1 }

  function Shift(crc: Word): Word { crc >> 1 }

  /** CRC_POLY_16. */
  const POLY: Word := 0xA001

  function Step(crc: Word): Word {
    if Out(crc) then Xor(Shift(crc), POLY) else Shift(crc)
  }

  function Steps(crc: Word, n: nat): Word
    decreases n
  {
    if n == 0 then crc else Steps(Step(crc), n - 1)
  }

  function ByteBits(): nat { 8 }

  /** One byte, its least significant bit first. */
  function Absorb(crc: Word, b: Byte): Word {
    Steps(Xor(crc, b), ByteBits())
  }

  function Fold(crc: Word, s: seq<Byte>): Word {
    if s == [] then crc else Absorb(Fold(crc, s[..|s| - 1]), s[|s| - 1])
  }

  lemma OutOfXor(x: Word, y: Word)
    ensures Out(Xor(x, y)) <==> Out(x) != Out(y)
  {
    if Out(x) {
      if Out(y) {
      } else {
      }
    } else {
    }
  }

  lemma ShiftOfXor(x: Word, y: Word)
    ensures Shift(Xor(x, y)) == Xor(Shift(x), Shift(y))
  {
  }

  lemma XorAssociates(x: Word, y: Word, z: Word)
    ensures Xor(Xor(x, y), z) == Xor(x, Xor(y, z))
  {
    assert (x ^ y) ^ z == x ^ (y ^ z);
  }

  lemma XorCommutes(x: Word, y: Word)
    ensures Xor(x, y) == Xor(y, x)
  {
  }

  lemma XorBack(x: Word, p: Word)
    ensures Xor(Xor(x, p), p) == x
  {
  }

  lemma XorOne(x: Word, y: Word, p: Word)
    ensures Xor(Xor(x, p), y) == Xor(Xor(x, y), p) == Xor(x, Xor(y, p))
  {
    XorAssociates(x, p, y);
    XorCommutes(p, y);
    XorAssociates(x, y, p);
  }

  lemma XorBoth(x: Word, y: Word, p: Word)
    ensures Xor(Xor(x, p), Xor(y, p)) == Xor(x, y)
  {
    XorOne(x, Xor(y, p), p);
    XorAssociates(x, Xor(y, p), p);
    XorBack(y, p);
  }

  lemma StepIsLinear(x: Word, y: Word)
    ensures Step(Xor(x, y)) == Xor(Step(x), Step(y))
  {
    OutOfXor(x, y);
    ShiftOfXor(x, y);
    if Out(x) && Out(y) {
      XorBoth(Shift(x), Shift(y), POLY);
    } else {
      XorOne(Shift(x), Shift(y), POLY);
    }
  }

  lemma {:induction false} StepsAreLinear(x: Word, y: Word, n: nat)
    ensures Steps(Xor(x, y), n) == Xor(Steps(x, n), Steps(y, n))
    decreases n
  {
    if n > 0 {
      StepIsLinear(x, y);
      StepsAreLinear(Step(x), Step(y), n - 1);
    }
  }

  /** The top bit of the polynomial is set, so the top bit of the register tells whether it was just subtracted. */
  lemma TopBitTells(x: Word)
    ensures Xor(Shift(x), POLY) & 0x8000 != 0 && Shift(x) & 0x8000 == 0
  {
    PolyHasTop(Shift(x), POLY);
  }

  lemma PolyHasTop(x: Word, p: Word)
    requires x & 0x8000 == 0 && p & 0x8000 != 0
    ensures Xor(x, p) & 0x8000 != 0
  {
  }

  lemma ShiftIsInjective(x: Word, y: Word)
    requires Out(x) == Out(y)
    requires Shift(x) == Shift(y)
    ensures x == y
  {
  }

  lemma Cancel(x: Word, y: Word, z: Word)
    requires Xor(x, z) == Xor(y, z) || Xor(z, x) == Xor(z, y)
    ensures x == y
  {
  }

  lemma StepIsInjective(x: Word, y: Word)
    requires Step(x) == Step(y)
    ensures x == y
  {
    TopBitTells(x);
    TopBitTells(y);
    if Out(x) {
      Cancel(Shift(x), Shift(y), POLY);
    }
    ShiftIsInjective(x, y);
  }

  lemma {:induction false} StepsAreInjective(x: Word, y: Word, n: nat)
    requires Steps(x, n) == Steps(y, n)
    ensures x == y
    decreases n
  {
    if n > 0 {
      StepsAreInjective(Step(x), Step(y), n - 1);
      StepIsInjective(x, y);
    }
  }

  lemma {:induction false} StepsJoin(x: Word, m: nat, n: nat)
    ensures Steps(Steps(x, m), n) == Steps(x, m + n)
    decreases m
  {
    if m > 0 {
      StepsJoin(Step(x), m - 1, n);
    }
  }

  function Half(x: Word, n: nat): Word
    decreases n
  {
    if n == 0 then x else Half(x >> 1, n - 1)
  }

  /** While the low `n` bits are clear the register only shifts. */
  predicate Clear(x: Word, n: nat)
    decreases n
  {
    n == 0 || (x & 1 == 0 && Clear(x >> 1, n - 1))
  }

  lemma {:induction false} ClearShifts(x: Word, n: nat)
    requires Clear(x, n)
    ensures Steps(x, n) == Half(x, n)
    decreases n
  {
    if n > 0 {
      ClearShifts(x >> 1, n - 1);
    }
  }

  /** The upper byte of the register, and what the table is asked for. */
  function Upper(x: Word): Word { x & 0xFF00 }
  function Lower(x: Word): Byte { x & 0xFF }

  lemma Parts(x: Word)
    ensures x == Xor(Upper(x), Lower(x))
  {
  }

  lemma UpperShifts(x: Word)
    ensures Steps(Upper(x), ByteBits()) == x >> 8
  {
    var u := Upper(x);
    UpperIsClear(x, u);
    ClearShifts(u, ByteBits());
  }

  lemma UpperIsClear(x: Word, u: Word)
    requires u == x & 0xFF00
    ensures Clear(u, ByteBits()) && Half(u, ByteBits()) == x >> 8
  {
    var u1, u2, u3, u4, u5, u6, u7 := UpperBits(x, u);
    var t, n := x >> 8, ByteBits() - 8;
    ClearMore(u7, t, t, n);
    ClearMore(u6, u7, t, n + 1);
    ClearMore(u5, u6, t, n + 2);
    ClearMore(u4, u5, t, n + 3);
    ClearMore(u3, u4, t, n + 4);
    ClearMore(u2, u3, t, n + 5);
    ClearMore(u1, u2, t, n + 6);
    ClearMore(u, u1, t, n + 7);
  }

  lemma ClearMore(x: Word, x': Word, top: Word, n: nat)
    requires x & 1 == 0 && x' == x >> 1 && Clear(x', n) && Half(x', n) == top
    ensures Clear(x, n + 1) && Half(x, n + 1) == top
  {
  }

  lemma UpperBits(x: Word, u: Word) returns (u1: Word, u2: Word, u3: Word, u4: Word, u5: Word, u6: Word, u7: Word)
    requires u == x & 0xFF00
    ensures u1 == u >> 1 && u2 == u1 >> 1 && u3 == u2 >> 1 && u4 == u3 >> 1 && u5 == u4 >> 1 && u6 == u5 >> 1 && u7 == u6 >> 1
    ensures u & 1 == 0 && u1 & 1 == 0 && u2 & 1 == 0 && u3 & 1 == 0
    ensures u4 & 1 == 0 && u5 & 1 == 0 && u6 & 1 == 0 && u7 & 1 == 0
    ensures u7 >> 1 == x >> 8
  {
    u1, u2, u3, u4, u5, u6, u7 := u >> 1, u >> 2, u >> 3, u >> 4, u >> 5, u >> 6, u >> 7;
  }

  // ---------- The table ----------

  function Entry(b: Byte): Word {
    Steps(b, ByteBits())
  }

  /** Eight steps are one shift by a byte and one lookup. */
  lemma LookupIsAbsorb(crc: Word, b: Byte)
    ensures Xor(crc >> 8, Entry(Lower(Xor(crc, b)))) == Absorb(crc, b)
  {
    var x := Xor(crc, b);
    Parts(x);
    StepsAreLinear(Upper(x), Lower(x), ByteBits());
    UpperShifts(x);
    ByteBelow(crc, b);
  }

  lemma ByteBelow(crc: Word, b: Byte)
    ensures Xor(crc, b) >> 8 == crc >> 8
  {
  }

  function ByteOf(i: nat): Byte
    requires i < 256
  {
    i as Word
  }

  function Slot(b: Byte): (i: nat)
    ensures i < 256 && ByteOf(i) == b
  {
    b as nat
  }

  predicate Filled(tab: seq<Word>, n: nat) {
    |tab| == 256 && n <= 256 && forall i: nat :: i < n ==> tab[i] == Entry(ByteOf(i))
  }

  /** After the eight bits of a byte nothing of it is left. */
  lemma ByteRunsOut(b: Byte)
    ensures Half(b, ByteBits()) == 0
  {
    var b1, b2, b3, b4 := b >> 1, b >> 2, b >> 3, b >> 4;
    var b5, b6, b7 := b >> 5, b >> 6, b >> 7;
    assert b1 >> 1 == b2 && b2 >> 1 == b3 && b3 >> 1 == b4 && b4 >> 1 == b5 && b5 >> 1 == b6 && b6 >> 1 == b7 && b7 >> 1 == 0;
    var n := ByteBits() - 8;
    HalfMore(b7, 0, n);
    HalfMore(b6, b7, n + 1);
    HalfMore(b5, b6, n + 2);
    HalfMore(b4, b5, n + 3);
    HalfMore(b3, b4, n + 4);
    HalfMore(b2, b3, n + 5);
    HalfMore(b1, b2, n + 6);
    HalfMore(b, b1, n + 7);
  }

  lemma HalfMore(x: Word, x': Word, n: nat)
    requires x' == x >> 1 && Half(x', n) == 0
    ensures Half(x, n + 1) == 0
  {
  }

  /** What the generator of the table makes of the register: it looks at the byte, but does not mix it in. */
  function Beside(crc: Word, c: Word): Word {
    if Out(Xor(crc, c)) then Xor(Shift(crc), POLY) else Shift(crc)
  }

  lemma SideBySide(crc: Word, c: Word)
    ensures Xor(Beside(crc, c), Shift(c)) == Step(Xor(crc, c))
  {
    ShiftOfXor(crc, c);
    XorOne(Shift(crc), Shift(c), POLY);
  }

  method TableEntry(i: nat) returns (crc: Word)
    requires i < 256
    ensures crc == Entry(ByteOf(i))
  {
    crc := 0;
    var c: Word := ByteOf(i);
    XorZero(c);
    ByteRunsOut(c);
    var j := 0;
    while j < 8
      invariant j <= 8 && Steps(Xor(crc, c), ByteBits() - j) == Entry(ByteOf(i)) && Half(c, ByteBits() - j) == 0
    {
      SideBySide(crc, c);
      crc := Beside(crc, c);
      c := Shift(c);
      j := j + 1;
    }
    XorZero(crc);
  }

  lemma XorZero(x: Word)
    ensures Xor(0, x) == x && Xor(x, 0) == x
  {
  }

  /** The lazily filled table, and the functions that ask it. */
  class Table {
    const tab: array<Word>
    var filled: bool

    ghost predicate Valid()
      reads this, tab
    {
      tab.Length == 256 && (filled ==> Filled(tab[..], 256))
    }

    constructor ()
      ensures Valid() && fresh(tab)
    {
      tab := new Word[256];
      filled := false;
    }

    /** init_crc16_tab. */
    method Init()
      requires Valid()
      modifies this, tab
      ensures Valid() && filled
    {
      var i := 0;
      while i < 256
        invariant i <= 256 && Filled(tab[..], i)
      {
        var e := TableEntry(i);
        tab[i] := e;
        i := i + 1;
      }
      filled := true;
    }

    /** One byte by a lookup. */
    method Look(crc: Word, b: Byte) returns (r: Word)
      requires Valid() && filled
      ensures r == Absorb(crc, b)
    {
      LookupIsAbsorb(crc, b);
      var slot := Slot(Lower(Xor(crc, b)));
      assert tab[..][slot] == Entry(ByteOf(slot));
      r := Xor(crc >> 8, tab[slot]);
    }

    /** The loop that crc_16 and crc_modbus share, from their two start values. */
    method Run(start: Word, input: array?<Byte>, count: nat) returns (crc: Word)
      requires Valid() && (input != null ==> count <= input.Length && input as object != tab as object)
      modifies this, tab
      ensures Valid() && filled && crc == if input == null then start else Fold(start, old(input[..count]))
    {
      if !filled {
        Init();
      }
      crc := start;
      if input != null {
        var a := 0;
        while a < count
          invariant a <= count && Valid() && filled && crc == Fold(start, input[..a])
          invariant unchanged(input)
        {
          crc := Look(crc, input[a]);
          assert input[..a + 1][..a] == input[..a];
          a := a + 1;
        }
      }
    }

    method Crc16(input: array?<Byte>, count: nat) returns (crc: Word)
      requires Valid() && (input != null ==> count <= input.Length && input as object != tab as object)
      modifies this, tab
      ensures Valid() && filled && crc == if input == null then 0 else Fold(0, old(input[..count]))
    {
      crc := Run(START_16, input, count);
    }

    method Modbus(input: array?<Byte>, count: nat) returns (crc: Word)
      requires Valid() && (input != null ==> count <= input.Length && input as object != tab as object)
      modifies this, tab
      ensures Valid() && filled && crc == if input == null then 0xFFFF else Fold(0xFFFF, old(input[..count]))
    {
      crc := Run(START_MODBUS, input, count);
    }

    /** update_crc_16. */
    method Update(crc: Word, b: Byte) returns (r: Word)
      requires Valid()
      modifies this, tab
      ensures Valid() && filled && r == Absorb(crc, b)
    {
      if !filled {
        Init();
      }
      r := Look(crc, b);
    }
  }

  // ---------- Laws ----------

  /** The polynomial x^16 + x^15 + x^2 + 1, the coefficient of x^i at bit 15 - i. */
  lemma Polynomial()
    ensures POLY == (1 << (15 - 15)) | (1 << (15 - 2)) | (1 << (15 - 0))
  {
  }

  /** A register full of ones moves its upper byte down. */
  lemma UpperByte()
    ensures Steps(0xFF00, ByteBits()) == 0xFF
  {
    assert Steps(0x00FF, 0) == 0x00FF && Steps(0x01FE, 1) == Steps(0x00FF, 0) && Steps(0x03FC, 2) == Steps(0x01FE, 1);
    assert Steps(0x07F8, 3) == Steps(0x03FC, 2) && Steps(0x0FF0, 4) == Steps(0x07F8, 3) && Steps(0x1FE0, 5) == Steps(0x0FF0, 4);
    assert Steps(0x3FC0, 6) == Steps(0x1FE0, 5) && Steps(0x7F80, 7) == Steps(0x3FC0, 6) && Steps(0xFF00, 8) == Steps(0x7F80, 7);
  }

  /** The Modbus value is the plain one of the message with its first two bytes complemented. */
  lemma PresetIsComplement(a: Byte, b: Byte, rest: seq<Byte>)
    ensures Fold(0xFFFF, [a, b] + rest) == Fold(0, [Complement(a), Complement(b)] + rest)
  {
    FoldJoin(0xFFFF, [a, b], rest);
    FoldJoin(0, [Complement(a), Complement(b)], rest);
    FoldOfTwo(0xFFFF, a, b);
    FoldOfTwo(0, Complement(a), Complement(b));
    StepsAreLinear(0xFF00, Xor(a, 0xFF), ByteBits());
    UpperByte();
    Ones(a);
    Moved(Steps(Xor(a, 0xFF), ByteBits()), b);
  }

  function Complement(b: Byte): Byte {
    Flip(b);
    Xor(b, 0xFF)
  }

  lemma Flip(b: Byte)
    ensures Xor(b, 0xFF) <= 0xFF
  {
  }

  lemma Ones(a: Byte)
    ensures Xor(0xFFFF, a) == Xor(0xFF00, Xor(a, 0xFF)) && Xor(0, Complement(a)) == Xor(a, 0xFF)
  {
  }

  lemma Moved(x: Word, b: Byte)
    ensures Xor(Xor(0xFF, x), b) == Xor(x, Complement(b))
  {
  }

  lemma {:induction false} FoldJoin(crc: Word, s: seq<Byte>, t: seq<Byte>)
    ensures Fold(crc, s + t) == Fold(Fold(crc, s), t)
    decreases |t|
  {
    if t == [] {
      assert s + t == s;
    } else {
      assert (s + t)[..|s + t| - 1] == s + t[..|t| - 1];
      FoldJoin(crc, s, t[..|t| - 1]);
    }
  }

  lemma {:induction false} FoldInjective(c: Word, d: Word, s: seq<Byte>)
    requires Fold(c, s) == Fold(d, s)
    ensures c == d
    decreases |s|
  {
    if s != [] {
      var m, b := s[..|s| - 1], s[|s| - 1];
      StepsAreInjective(Xor(Fold(c, m), b), Xor(Fold(d, m), b), ByteBits());
      Cancel(Fold(c, m), Fold(d, m), b);
      FoldInjective(c, d, m);
    }
  }

  /** Two bytes, the low one first. */
  function Pair(low: Byte, high: Byte): Word {
    Xor(low, high << 8)
  }

  lemma PairIsFaithful(low: Byte, high: Byte)
    ensures Pair(low, high) & 0xFF == low && Pair(low, high) >> 8 == high
  {
  }

  lemma PairOf(x: Word)
    ensures x >> 8 <= 0xFF && Pair(x & 0xFF, x >> 8) == x
  {
  }

  /** The register takes two bytes as if they had been there from the start. */
  lemma TwoBytes(crc: Word, low: Byte, high: Byte)
    ensures Absorb(Absorb(crc, low), high) == Steps(Xor(crc, Pair(low, high)), ByteBits() + ByteBits())
  {
    var up := high << 8;
    UpAndDown(high, up);
    UpperShifts(up);
    StepsAreLinear(Xor(crc, low), up, ByteBits());
    XorAssociates(crc, low, up);
    StepsJoin(Xor(crc, Pair(low, high)), ByteBits(), ByteBits());
  }

  lemma UpAndDown(b: Byte, up: Word)
    requires up == b << 8
    ensures Upper(up) == up && up >> 8 == b
  {
  }

  /** Two more bytes bring the register to zero exactly when they are its value, the low byte first. */
  lemma ResidueZeroIff(start: Word, s: seq<Byte>, low: Byte, high: Byte)
    ensures Fold(start, s + [low, high]) == 0
        <==> low == Fold(start, s) & 0xFF && high == Fold(start, s) >> 8
  {
    var crc, n := Fold(start, s), ByteBits() + ByteBits();
    FoldTwo(start, s, low, high);
    ZeroIff(Xor(crc, Pair(low, high)), n);
    XorIsZeroIff(crc, Pair(low, high));
    PairIff(crc, low, high);
  }

  lemma ZeroIff(x: Word, n: nat)
    ensures Steps(x, n) == 0 <==> x == 0
  {
    ZeroStays(n);
    if Steps(x, n) == 0 {
      StepsAreInjective(x, 0, n);
    }
  }

  lemma PairIff(x: Word, low: Byte, high: Byte)
    ensures x == Pair(low, high) <==> low == x & 0xFF && high == x >> 8
  {
    PairIsFaithful(low, high);
    PairOf(x);
  }

  lemma FoldTwo(start: Word, s: seq<Byte>, low: Byte, high: Byte)
    ensures Fold(start, s + [low, high])
         == Steps(Xor(Fold(start, s), Pair(low, high)), ByteBits() + ByteBits())
  {
    FoldJoin(start, s, [low, high]);
    FoldOfTwo(Fold(start, s), low, high);
    TwoBytes(Fold(start, s), low, high);
  }

  lemma FoldOfTwo(crc: Word, low: Byte, high: Byte)
    ensures Fold(crc, [low, high]) == Absorb(Absorb(crc, low), high)
  {
    var s, t := [low, high], [low];
    assert s[..|s| - 1] == t && t[..|t| - 1] == [];
    assert Fold(crc, t) == Absorb(crc, low);
  }

  lemma {:induction false} ZeroStays(n: nat)
    ensures Steps(0, n) == 0
    decreases n
  {
    if n > 0 {
      ZeroStays(n - 1);
    }
  }

  lemma XorIsZeroIff(x: Word, y: Word)
    ensures Xor(x, y) == 0 <==> x == y
  {
    XorSelf(y);
    if Xor(x, y) == 0 {
      Cancel(x, y, y);
    }
  }

  lemma XorSelf(x: Word)
    ensures Xor(x, x) == 0
  {
  }

  /** Messages of the same length that differ only within two adjacent bytes never have the same value. */
  lemma AdjacentBytesDetected(start: Word, s: seq<Byte>, t: seq<Byte>, i: nat)
    requires |s| == |t| && i + 2 <= |s| && s != t
    requires forall k: nat :: k < |s| && (k < i || i + 2 <= k) ==> s[k] == t[k]
    ensures Fold(start, s) != Fold(start, t)
  {
    var head, tail := s[..i], s[i + 2..];
    assert s == head + [s[i], s[i + 1]] + tail && t == head + [t[i], t[i + 1]] + tail;
    if Fold(start, s) == Fold(start, t) {
      FoldJoin(start, head + [s[i], s[i + 1]], tail);
      FoldJoin(start, head + [t[i], t[i + 1]], tail);
      FoldInjective(Fold(start, head + [s[i], s[i + 1]]), Fold(start, head + [t[i], t[i + 1]]), tail);
      PairDetected(start, head, s[i], s[i + 1], t[i], t[i + 1]);
      assert false;
    }
  }

  lemma PairDetected(start: Word, head: seq<Byte>, a: Byte, b: Byte, c: Byte, d: Byte)
    requires Fold(start, head + [a, b]) == Fold(start, head + [c, d])
    ensures a == c && b == d
  {
    FoldTwo(start, head, a, b);
    FoldTwo(start, head, c, d);
    var crc := Fold(start, head);
    StepsAreInjective(Xor(crc, Pair(a, b)), Xor(crc, Pair(c, d)), ByteBits() + ByteBits());
    Cancel(Pair(a, b), Pair(c, d), crc);
    PairIsFaithful(a, b);
    PairIsFaithful(c, d);
  }

  // ---------- Long division ----------

  /** The bits of a byte in the order they enter, the least significant first. */
  function BitsOf(b: Word, n: nat): seq<bool>
    decreases n
  {
    if n == 0 then [] else [b & 1 == 1] + BitsOf(b >> 1, n - 1)
  }

  function Bits(s: seq<Byte>): seq<bool> {
    if s == [] then [] else BitsOf(s[0], ByteBits()) + Bits(s[1..])
  }

  /** One step of schoolbook division by x^16 + x^15 + x^2 + 1: bring down a bit behind the remainder so far,
      and subtract the divisor if its leading bit fits. The highest power stands in the lowest bit. */
  function BringDown(r: Word, bit: bool): Word {
    Xor(Step(r), if bit then 0x8000 else 0)
  }

  function Remainder(r: Word, bits: seq<bool>): Word
    decreases |bits|
  {
    if bits == [] then r else Remainder(BringDown(r, bits[0]), bits[1..])
  }

  function ZeroBits(n: nat): seq<bool> { seq(n, _ => false) }

  /** The register with the bits fed in at its low end. */
  function Feed(crc: Word, bit: bool): Word {
    Step(Xor(crc, if bit then 1 else 0))
  }

  function FeedAll(crc: Word, bits: seq<bool>): Word
    decreases |bits|
  {
    if bits == [] then crc else FeedAll(Feed(crc, bits[0]), bits[1..])
  }

  lemma {:induction false} ByteIsFed(crc: Word, b: Word, n: nat)
    requires Half(b, n) == 0
    ensures Steps(Xor(crc, b), n) == FeedAll(crc, BitsOf(b, n))
    decreases n
  {
    if n == 0 {
      XorZero(crc);
    } else {
      LowBitFed(crc, b);
      ByteIsFed(Feed(crc, b & 1 == 1), b >> 1, n - 1);
      assert BitsOf(b, n)[1..] == BitsOf(b >> 1, n - 1);
    }
  }

  lemma LowBitFed(crc: Word, b: Word)
    ensures Step(Xor(crc, b)) == Xor(Feed(crc, b & 1 == 1), b >> 1)
  {
    LowBitOff(b);
    var low: Word := if b & 1 == 1 then 1 else 0;
    var rest := Xor(b, low);
    XorAssociates(crc, low, rest);
    assert Xor(low, rest) == b by {
      XorCommutes(low, rest);
      XorBack(b, low);
    }
    StepIsLinear(Xor(crc, low), rest);
  }

  lemma LowBitOff(b: Word)
    ensures Step(Xor(b, if b & 1 == 1 then 1 else 0)) == b >> 1
  {
    if b & 1 == 1 {
      assert (b ^ 1) & 1 == 0 && (b ^ 1) >> 1 == b >> 1;
    } else {
      XorZero(b);
    }
  }

  lemma {:induction false} FeedJoin(crc: Word, a: seq<bool>, b: seq<bool>)
    ensures FeedAll(crc, a + b) == FeedAll(FeedAll(crc, a), b)
    decreases |a|
  {
    if a == [] {
      assert a + b == b;
    } else {
      assert (a + b)[1..] == a[1..] + b;
      FeedJoin(Feed(crc, a[0]), a[1..], b);
    }
  }

  lemma {:induction false} FoldIsFed(crc: Word, s: seq<Byte>)
    ensures Fold(crc, s) == FeedAll(crc, Bits(s))
    decreases |s|
  {
    if s != [] {
      assert s == [s[0]] + s[1..];
      FoldJoin(crc, [s[0]], s[1..]);
      assert Fold(crc, [s[0]]) == Absorb(crc, s[0]);
      ByteRunsOut(s[0]);
      ByteIsFed(crc, s[0], ByteBits());
      FoldIsFed(Absorb(crc, s[0]), s[1..]);
      FeedJoin(crc, BitsOf(s[0], ByteBits()), Bits(s[1..]));
    }
  }

  lemma {:induction false} ZerosStep(r: Word, n: nat)
    ensures Remainder(r, ZeroBits(n)) == Steps(r, n)
    decreases n
  {
    if n > 0 {
      XorZero(Step(r));
      assert ZeroBits(n)[1..] == ZeroBits(n - 1);
      ZerosStep(Step(r), n - 1);
    }
  }

  /** A bit that enters at the far end has become the feedback of one step after sixteen. */
  lemma FarBit(n: nat)
    requires n == 16
    ensures Steps(0x8000, n) == Step(1)
  {
    UpperShifts(0x8000);
    assert Upper(0x8000) == 0x8000;
    StepsJoin(0x8000, ByteBits(), n - 8);
    var m := n - 16;
    OneStep(1, Step(1), Step(1), m);
    OneStep(2, 1, Step(1), m + 1);
    OneStep(4, 2, Step(1), m + 2);
    OneStep(8, 4, Step(1), m + 3);
    OneStep(16, 8, Step(1), m + 4);
    OneStep(32, 16, Step(1), m + 5);
    OneStep(64, 32, Step(1), m + 6);
    OneStep(128, 64, Step(1), m + 7);
  }

  lemma OneStep(x: Word, x': Word, end: Word, m: nat)
    requires x' == Step(x) && Steps(x', m) == end
    ensures Steps(x, m + 1) == end
  {
  }

  /** Bits brought down and then sixteen zeros, or bits fed in at the low end: the same register. */
  lemma {:induction false} DivisionIsFeeding(r: Word, bits: seq<bool>, n: nat)
    requires n == 16
    ensures Remainder(r, bits + ZeroBits(n)) == FeedAll(Steps(r, n), bits)
    decreases |bits|
  {
    if bits == [] {
      assert bits + ZeroBits(n) == ZeroBits(n);
      ZerosStep(r, n);
    } else {
      assert (bits + ZeroBits(n))[1..] == bits[1..] + ZeroBits(n);
      DivisionIsFeeding(BringDown(r, bits[0]), bits[1..], n);
      BringDownFeeds(r, bits[0], n);
    }
  }

  lemma BringDownFeeds(r: Word, bit: bool, n: nat)
    requires n == 16
    ensures Steps(BringDown(r, bit), n) == Feed(Steps(r, n), bit)
  {
    var far: Word := if bit then 0x8000 else 0;
    var near: Word := if bit then 1 else 0;
    StepsAreLinear(Step(r), far, n);
    FarBit(n);
    ZeroStays(n);
    StepsJoin(r, 1, n);
    StepsJoin(r, n, 1);
    assert Steps(Step(r), n) == Step(Steps(r, n)) by {
      assert Steps(r, 1) == Step(r) && Steps(Steps(r, n), 1) == Step(Steps(r, n));
    }
    assert Steps(far, n) == Step(near);
    StepIsLinear(Steps(r, n), near);
  }

  /** crc_16 is the remainder of the message followed by sixteen zero bits. */
  lemma CrcIsRemainder(s: seq<Byte>, n: nat)
    requires n == 16
    ensures Fold(START_16, s) == Remainder(0, Bits(s) + ZeroBits(n))
  {
    FoldIsFed(START_16, s);
    DivisionIsFeeding(0, Bits(s), n);
    ZeroStays(n);
  }
}
