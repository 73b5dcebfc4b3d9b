/** sha1.c: the buffered stream. What the context holds is a function of the bytes given to it so far,
    however they were cut into calls, and the final block is padded as FIPS 180-4 asks. */
module Sha1Stream {
  import opened Fips180
  import Sha1Transform

  const TWO_32: nat := 0x1_0000_0000
  const TWO_64: nat := 0x1_0000_0000_0000_0000
  /** No object in memory has a bit count beyond size_t. */
  const OBJECT_LIMIT: nat := 0x2000_0000_0000_0000
  /** 2^29 bytes are 2^32 bits. */
  const CALL_LIMIT: nat := 0x2000_0000

  datatype Count = Count(low: nat, high: nat)

  predicate ValidCount(c: Count) {
    c.low < TWO_32 && c.high < TWO_32
  }

  function Bits(c: Count): nat {
    c.low + TWO_32 * c.high
  }

  /** The two halves of the bit count after a call with `length` more bytes. */
  function Counted(c: Count, length: nat): Count
    requires length < OBJECT_LIMIT
  {
    var low := (c.low + 8 * length) % TWO_32;
    var carry := if low < 8 * length then 1 else 0;
    Count(low, (c.high + carry + length / CALL_LIMIT) % TWO_32)
  }

  /** The carry is taken from a comparison with the whole bit count of the call, so it is right for calls of
      less than 2^29 bytes, and for longer ones exactly when the low half really overflows. */
  lemma CountedRightIff(c: Count, length: nat)
    requires ValidCount(c) && length < OBJECT_LIMIT
    ensures ValidCount(Counted(c, length))
    ensures Counted(c, length).low == (Bits(c) + 8 * length) % TWO_32
    ensures Bits(Counted(c, length)) == (Bits(c) + 8 * length) % TWO_64
        <==> length < CALL_LIMIT || c.low + 8 * length % TWO_32 >= TWO_32
  {
    var whole, part := length / CALL_LIMIT, length % CALL_LIMIT;
    assert 8 * length == TWO_32 * whole + 8 * part && 8 * part < TWO_32;
    var over := if c.low + 8 * part >= TWO_32 then 1 else 0;
    var low := c.low + 8 * part - TWO_32 * over;
    LowHalf(c.low + 8 * length, whole + over, low);
    var high := c.high + whole + over;
    assert Bits(c) + 8 * length == low + TWO_32 * high;
    LowHalf(Bits(c) + 8 * length, high, low);
    HighHalf(low, high);
    var carry := if low < 8 * length then 1 else 0;
    if length >= CALL_LIMIT {
      assert whole >= 1 && carry == 1;
    } else {
      assert whole == 0 && carry == over;
    }
    OneMore(c.high + whole);
  }

  lemma LowHalf(n: nat, k: nat, low: nat)
    requires n == low + TWO_32 * k && low < TWO_32
    ensures n % TWO_32 == low
  {
  }

  lemma HighHalf(low: nat, high: nat)
    requires low < TWO_32
    ensures (low + TWO_32 * high) % TWO_64 == low + TWO_32 * (high % TWO_32)
  {
    var k := high / TWO_32;
    assert high == TWO_32 * k + high % TWO_32;
    assert low + TWO_32 * high == TWO_64 * k + (low + TWO_32 * (high % TWO_32));
  }

  lemma OneMore(n: nat)
    ensures n % TWO_32 != (n + 1) % TWO_32
  {
  }

  // ---------- The context ----------

  /** How much of the message stands in the buffer. */
  function Rest(n: nat): nat { n % 64 }

  /** The state has taken in the whole blocks of `m`, the buffer starts with what is left. */
  predicate Holds(state: Hash, buffer: seq<Byte>, low: nat, m: seq<Byte>) {
    && |buffer| == 64
    && low == 8 * |m| % TWO_32
    && state == Digest(INITIAL, m)
    && buffer[..Rest(|m|)] == Tail(m)
  }

  lemma Position(n: nat, low: nat)
    requires low == 8 * n % TWO_32
    ensures low / 8 % 64 == Rest(n)
  {
    var k := 8 * n / TWO_32;
    assert 8 * n == TWO_32 * k + low;
    var q := n - CALL_LIMIT * k;
    assert low == 8 * q && low / 8 == q;
    RestShifts(n, q, 0x80_0000 * k);
  }

  lemma RestShifts(n: nat, q: nat, c: nat)
    requires n == q + 64 * c
    ensures q % 64 == n % 64
  {
  }

  lemma DigestBlock(a: seq<Byte>, block: seq<Byte>, whole: seq<Byte>)
    requires |a| % 64 == 0 && |block| == 64 && whole == a + block
    ensures Digest(INITIAL, whole) == Compress(Digest(INITIAL, a), block, RoundCount())
  {
    DigestJoin(INITIAL, a, block);
    DigestOne(Digest(INITIAL, a), block);
  }

  lemma DigestOne(h: Hash, block: seq<Byte>)
    requires |block| == 64
    ensures Digest(h, block) == Compress(h, block, RoundCount())
  {
    assert block[..64] == block;
  }

  lemma DigestTail(a: seq<Byte>, tail: seq<Byte>, whole: seq<Byte>)
    requires |a| % 64 == 0 && |tail| < 64 && whole == a + tail
    ensures Digest(INITIAL, whole) == Digest(INITIAL, a)
  {
    DigestJoin(INITIAL, a, tail);
  }

  function Whole(m: seq<Byte>): seq<Byte> { m[..|m| - Rest(|m|)] }
  function Tail(m: seq<Byte>): seq<Byte> { m[|m| - Rest(|m|)..] }

  lemma WholeAndTail(m: seq<Byte>)
    ensures |Whole(m)| % 64 == 0 && |Tail(m)| < 64 && m == Whole(m) + Tail(m)
  {
    assert |Whole(m)| == 64 * (|m| / 64);
  }

  lemma TailIsKnown(a: seq<Byte>, tail: seq<Byte>, m: seq<Byte>)
    requires |a| % 64 == 0 && |tail| < 64 && m == a + tail
    ensures Tail(m) == tail
  {
    assert |m| == 64 * (|a| / 64) + |tail|;
  }

  /** The first block of a call: what stood in the buffer, filled up from the data. */
  lemma FirstBlock(m: seq<Byte>, first: seq<Byte>, block: seq<Byte>, m': seq<Byte>)
    requires |first| == 64 - Rest(|m|) && block == Tail(m) + first && m' == m + first
    ensures Digest(INITIAL, m') == Compress(Digest(INITIAL, m), block, RoundCount())
    ensures |m'| % 64 == 0
  {
    var a := FirstCut(m, first, block, m');
    DigestAcross(a, Tail(m), m, block, m');
  }

  lemma DigestAcross(a: seq<Byte>, tail: seq<Byte>, m: seq<Byte>, block: seq<Byte>, m': seq<Byte>)
    requires |a| % 64 == 0 && |tail| < 64 && m == a + tail && |block| == 64 && m' == a + block
    ensures Digest(INITIAL, m') == Compress(Digest(INITIAL, m), block, RoundCount())
  {
    DigestTail(a, tail, m);
    DigestBlock(a, block, m');
  }

  lemma FirstCut(m: seq<Byte>, first: seq<Byte>, block: seq<Byte>, m': seq<Byte>) returns (a: seq<Byte>)
    requires |first| == 64 - Rest(|m|) && block == Tail(m) + first && m' == m + first
    ensures |a| % 64 == 0 && |Tail(m)| < 64 && m == a + Tail(m) && |block| == 64 && m' == a + block
    ensures |m'| % 64 == 0
  {
    a := Whole(m);
    WholeAndTail(m);
    Reassociate(a, Tail(m), first);
    assert |m'| == 64 * (|a| / 64 + 1);
  }

  lemma Reassociate(a: seq<Byte>, b: seq<Byte>, c: seq<Byte>)
    ensures a + b + c == a + (b + c)
  {
  }

  lemma NextBlock(m: seq<Byte>, data: seq<Byte>, i: nat, block: seq<Byte>)
    requires i + 64 <= |data| && (|m| + i) % 64 == 0 && block == data[i..i + 64]
    ensures Digest(INITIAL, m + data[..i + 64]) == Compress(Digest(INITIAL, m + data[..i]), block, RoundCount())
  {
    var a, whole := m + data[..i], m + data[..i + 64];
    NextCut(m, data, i, a, block, whole);
    DigestBlock(a, block, whole);
  }

  lemma NextCut(m: seq<Byte>, data: seq<Byte>, i: nat, a: seq<Byte>, block: seq<Byte>, whole: seq<Byte>)
    requires i + 64 <= |data| && block == data[i..i + 64] && a == m + data[..i] && whole == m + data[..i + 64]
    ensures whole == a + block
  {
    assert data[..i + 64] == data[..i] + data[i..i + 64];
    Reassociate(m, data[..i], data[i..i + 64]);
  }

  /** What is left of the data after its last whole block starts the buffer. */
  lemma KeptWhole(m: seq<Byte>, data: seq<Byte>, i: nat)
    requires |data| < i + 64 && i <= |data| && (|m| + i) % 64 == 0
    ensures Digest(INITIAL, m + data) == Digest(INITIAL, m + data[..i])
    ensures Tail(m + data) == data[i..]
  {
    var a, tail, whole := m + data[..i], data[i..], m + data;
    KeptCut(m, data, i, a, tail, whole);
    DigestTail(a, tail, whole);
    TailIsKnown(a, tail, whole);
  }

  lemma KeptCut(m: seq<Byte>, data: seq<Byte>, i: nat, a: seq<Byte>, tail: seq<Byte>, whole: seq<Byte>)
    requires i <= |data| && a == m + data[..i] && tail == data[i..] && whole == m + data
    ensures whole == a + tail
  {
    assert data == data[..i] + data[i..];
    Reassociate(m, data[..i], data[i..]);
  }

  /** A call too short to fill the buffer. */
  lemma KeptMore(m: seq<Byte>, data: seq<Byte>, m': seq<Byte>)
    requires Rest(|m|) + |data| <= 63 && m' == m + data
    ensures Digest(INITIAL, m') == Digest(INITIAL, m)
    ensures Tail(m') == Tail(m) + data
  {
    var a, tail := Whole(m), Tail(m);
    WholeAndTail(m);
    Reassociate(a, tail, data);
    DigestTail(a, tail, m);
    DigestTail(a, tail + data, m');
    TailIsKnown(a, tail + data, m');
  }

  class Context {
    var state: Hash
    var low: nat
    var high: nat
    const buffer: array<Byte>

    ghost predicate Valid()
      reads this
    {
      buffer.Length == 64 && ValidCount(Count(low, high))
    }

    /** The context stands where the bytes of `m` bring it, whatever stale bytes are behind them in the buffer. */
    ghost predicate After(m: seq<Byte>)
      reads this, buffer
    {
      Valid() && Holds(state, buffer[..], low, m)
    }

    /** sat_SHA1_Init. */
    constructor ()
      ensures After([]) && Count(low, high) == Count(0, 0) && fresh(buffer)
    {
      state := INITIAL;
      low, high := 0, 0;
      buffer := new Byte[64];
    }

    /** memcpy into the buffer. */
    method Fill(j: nat, data: seq<Byte>)
      requires Valid() && j + |data| <= 64
      modifies buffer
      ensures buffer[..j] == old(buffer[..j]) && buffer[j..j + |data|] == data
    {
      forall k | 0 <= k < |data| {
        buffer[j + k] := data[k];
      }
    }

    method CountUp(length: nat)
      requires Valid() && length < OBJECT_LIMIT
      modifies `low, `high
      ensures Valid() && Count(low, high) == Counted(Count(old(low), old(high)), length)
    {
      low := (low + 8 * length) % TWO_32;
      if low < 8 * length {
        high := (high + 1) % TWO_32;
      }
      high := (high + length / CALL_LIMIT) % TWO_32;
    }

    /** sat_SHA1_Update. */
    method Update(data: seq<Byte>, ghost m: seq<Byte>)
      requires After(m) && |data| < OBJECT_LIMIT
      modifies this, buffer
      ensures After(m + data)
      ensures Count(low, high) == Counted(Count(old(low), old(high)), |data|)
    {
      var j := low / 8 % 64;
      Position(|m|, low);
      CountUp(|data|);
      LowCounts(m, data, old(low), low);
      var i := 0;
      if j + |data| > 63 {
        i := Blocks(j, data, m);
        Fill(0, data[i..]);
        KeptWhole(m, data, i);
      } else {
        Fill(j, data);
        KeptMore(m, data, m + data);
      }
    }

    /** The whole blocks of a call that fills the buffer. */
    method Blocks(j: nat, data: seq<Byte>, ghost m: seq<Byte>) returns (i: nat)
      requires Valid() && state == Digest(INITIAL, m) && j == Rest(|m|) && j + |data| > 63
      requires buffer[..j] == Tail(m)
      modifies `state, buffer
      ensures i <= |data| < i + 64 && (|m| + i) % 64 == 0
      ensures state == Digest(INITIAL, m + data[..i])
    {
      i := 64 - j;
      Fill(j, data[..i]);
      FirstBlock(m, data[..i], buffer[..], m + data[..i]);
      state := Sha1Transform.Transform(state, buffer[..], RoundCount());
      while i + 63 < |data|
        invariant i <= |data| && (|m| + i) % 64 == 0
        invariant state == Digest(INITIAL, m + data[..i])
      {
        var block := data[i..i + 64];
        NextBlock(m, data, i, block);
        state := Sha1Transform.Transform(state, block, RoundCount());
        i := i + 64;
      }
    }
  }

  lemma LowCounts(m: seq<Byte>, data: seq<Byte>, before: nat, low: nat)
    requires before == 8 * |m| % TWO_32 && low == (before + 8 * |data|) % TWO_32
    ensures low == 8 * |m + data| % TWO_32
  {
    var k := 8 * |m| / TWO_32;
    assert 8 * |m + data| == TWO_32 * k + (before + 8 * |data|);
  }
}
