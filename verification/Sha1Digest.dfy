/** sha1.c: padding and the whole hash. Any cut of a message into calls gives its SHA-1 value. */
module Sha1Digest {
  import opened Fips180
  import opened Sha1Stream

  // ---------- The eight bytes of the bit count ----------

  /** Shift right by `k` bytes. */
  function Shr(x: nat, k: nat): nat {
    if k == 0 then x else Shr(x / 256, k - 1)
  }

  lemma {:induction false} BytesOfAt(x: nat, n: nat, i: nat)
    requires i < n
    ensures BytesOf(x, n)[i] == ByteOf(Shr(x, n - 1 - i))
  {
    if i < n - 1 {
      BytesOfAt(x / 256, n - 1, i);
    }
  }

  lemma ByteOfLow(x: nat, q: nat)
    ensures ByteOf(x + 256 * q) == ByteOf(x)
  {
    assert (x + 256 * q) % 256 == x % 256;
  }

  lemma ShiftsDown(x: nat, q: nat)
    ensures (x + 256 * q) / 256 == x / 256 + q
  {
  }

  /** The low four bytes of a count come from its low half, the others from its high half. */
  lemma HalvesOfShift(low: nat, high: nat, k: nat)
    requires low < TWO_32 && k < 4
    ensures ByteOf(Shr(low + TWO_32 * high, k)) == ByteOf(Shr(low, k))
    ensures Shr(low + TWO_32 * high, k + 4) == Shr(high, k)
  {
    var l1, l2, l3 := FourShifts(low, high);
    ShrFour(low + TWO_32 * high, l1 + 0x100_0000 * high, l2 + 0x1_0000 * high, l3 + 0x100 * high, high, k);
    ShrFour(low, l1, l2, l3, 0, k);
    ByteOfLow(low, 0x100_0000 * high);
    ByteOfLow(l1, 0x1_0000 * high);
    ByteOfLow(l2, 0x100 * high);
    ByteOfLow(l3, high);
  }

  lemma FourShifts(low: nat, high: nat) returns (l1: nat, l2: nat, l3: nat)
    requires low < TWO_32
    ensures l1 == low / 256 && l2 == l1 / 256 && l3 == l2 / 256 && l3 / 256 == 0
    ensures (low + 0x1_0000_0000 * high) / 256 == l1 + 0x100_0000 * high
    ensures (l1 + 0x100_0000 * high) / 256 == l2 + 0x1_0000 * high
    ensures (l2 + 0x1_0000 * high) / 256 == l3 + 0x100 * high
    ensures (l3 + 0x100 * high) / 256 == high
  {
    l1, l2, l3 := low / 256, low / 256 / 256, low / 256 / 256 / 256;
    ShiftsDown(low, 0x100_0000 * high);
    ShiftsDown(l1, 0x1_0000 * high);
    ShiftsDown(l2, 0x100 * high);
    ShiftsDown(l3, high);
  }

  lemma ShrFour(x: nat, x1: nat, x2: nat, x3: nat, x4: nat, k: nat)
    requires x / 256 == x1 && x1 / 256 == x2 && x2 / 256 == x3 && x3 / 256 == x4 && k < 4
    ensures Shr(x, k) == if k == 0 then x else if k == 1 then x1 else if k == 2 then x2 else x3
    ensures Shr(x, k + 4) == Shr(x4, k)
  {
    assert Shr(x, k + 4) == Shr(x1, k + 3);
    assert Shr(x1, k + 3) == Shr(x2, k + 2);
    assert Shr(x2, k + 2) == Shr(x3, k + 1);
    assert Shr(x3, k + 1) == Shr(x4, k);
    if k > 0 {
      assert Shr(x, k) == Shr(x1, k - 1);
      if k > 1 {
        assert Shr(x1, k - 1) == Shr(x2, k - 2);
      }
    }
  }

  lemma CountByteAt(c: Count, n: nat, i: nat)
    requires ValidCount(c) && i < n == 8
    ensures BytesOf(Bits(c), n)[i] == ByteOf(Shr(if i >= 4 then c.low else c.high, 3 - i % 4))
  {
    BytesOfAt(Bits(c), n, i);
    HalvesOfShift(c.low, c.high, 3 - i % 4);
  }

  method CountBytes(c: Count) returns (r: seq<Byte>)
    requires ValidCount(c)
    ensures r == BytesOf(Bits(c), 8)
  {
    r := [];
    var i := 0;
    while i < 8
      invariant i <= 8 && |r| == i
      invariant forall k: nat :: k < i ==> r[k] == BytesOf(Bits(c), 8)[k]
    {
      CountByteAt(c, 8, i);
      r := r + [ByteOf(Shr(if i >= 4 then c.low else c.high, 3 - i % 4))];
      i := i + 1;
    }
  }

  // ---------- The twenty bytes of the result ----------

  function WordAt(h: Hash, j: nat): Word
    requires j < 5
  {
    if j == 0 then h.a else if j == 1 then h.b else if j == 2 then h.c else if j == 3 then h.d else h.e
  }

  function ByteAt(w: Word, k: nat): Byte
    requires k < 4
  {
    if k == 0 then (w >> 24) & 0xFF else if k == 1 then (w >> 16) & 0xFF
    else if k == 2 then (w >> 8) & 0xFF else w & 0xFF
  }

  lemma TopByte(w: Word)
    ensures (w >> 24) & 0xFF == w >> 24
  {
  }

  lemma WordByteAt(w: Word, k: nat)
    requires k < 4
    ensures |WordBytes(w)| == 4 && WordBytes(w)[k] == ByteAt(w, k)
  {
    TopByte(w);
  }

  lemma JoinedAt(a: seq<Byte>, b: seq<Byte>, c: seq<Byte>, d: seq<Byte>, e: seq<Byte>, i: nat)
    requires |a| == |b| == |c| == |d| == |e| == 4 && i < 20
    ensures (a + b + c + d + e)[i]
         == (if i / 4 == 0 then a else if i / 4 == 1 then b else if i / 4 == 2 then c else if i / 4 == 3 then d else e)[i % 4]
  {
  }

  lemma HashByteAt(h: Hash, i: nat)
    requires i < 20
    ensures |HashBytes(h)| == 20 && HashBytes(h)[i] == ByteAt(WordAt(h, i / 4), i % 4)
  {
    JoinedAt(WordBytes(h.a), WordBytes(h.b), WordBytes(h.c), WordBytes(h.d), WordBytes(h.e), i);
    WordByteAt(WordAt(h, i / 4), i % 4);
  }

  predicate BytesAre(h: Hash, r: seq<Byte>, n: nat) {
    |r| == n <= 20 && forall i: nat :: i < n ==> r[i] == ByteAt(WordAt(h, i / 4), i % 4)
  }

  method StoreBytes(h: Hash) returns (r: seq<Byte>)
    ensures BytesAre(h, r, 20)
  {
    r := [];
    var i := 0;
    while i < 20
      invariant i <= 20 && BytesAre(h, r, i)
    {
      var b := ByteAt(WordAt(h, i / 4), i % 4);
      r := r + [b];
      i := i + 1;
    }
  }

  lemma HashBytesAre(h: Hash)
    ensures BytesAre(h, HashBytes(h), 20)
  {
    assert |HashBytes(h)| == 20;
    forall i: nat | i < 20 ensures HashBytes(h)[i] == ByteAt(WordAt(h, i / 4), i % 4) {
      HashByteAt(h, i);
    }
  }

  method DigestBytes(h: Hash) returns (r: seq<Byte>)
    ensures r == HashBytes(h)
  {
    r := StoreBytes(h);
    HashBytesAre(h);
    SameBytes(h, r, HashBytes(h));
  }

  lemma SameBytes(h: Hash, r: seq<Byte>, q: seq<Byte>)
    requires BytesAre(h, r, 20) && BytesAre(h, q, 20)
    ensures r == q
  {
  }

  // ---------- Padding ----------

  /** The padding loop stops after exactly as many zero bytes as section 5.1.1 of FIPS 180-4 asks for. */
  lemma PaddingStops(length: nat, k: nat)
    requires k <= ZeroCount(length)
    ensures Rest(length + 1 + k) == 56 <==> k == ZeroCount(length)
  {
    var q := length / 64;
    assert length == 64 * q + length % 64;
  }

  /** sat_SHA1_Final after the message `m`: the digest of `m` padded with the bit count as the context has it,
      and the context wiped. */
  method Final(c: Context, ghost m: seq<Byte>) returns (digest: seq<Byte>)
    requires c.After(m)
    modifies c, c.buffer
    ensures digest == HashBytes(Digest(INITIAL, m + PaddingFor(|m|, Bits(Count(old(c.low), old(c.high))))))
    ensures c.low == c.high == 0 && c.state == Hash(0, 0, 0, 0, 0) && c.buffer[..] == Zeros(64)
  {
    var count := CountBytes(Count(c.low, c.high));
    ghost var p := PadBlock(c, m);
    c.Update(count, p);
    PaddedWhole(m, p, count);
    digest := DigestBytes(c.state);
    Wipe(c);
  }

  /** The one bit and the zero bits before the length. */
  method PadBlock(c: Context, ghost m: seq<Byte>) returns (ghost p: seq<Byte>)
    requires c.After(m)
    modifies c, c.buffer
    ensures c.After(p) && p == m + [0x80] + Zeros(ZeroCount(|m|))
  {
    c.Update([0x80], m);
    p := m + [0x80];
    ghost var k := 0;
    assert p + Zeros(0) == p;
    while c.low / 8 % 64 != 56
      invariant k <= ZeroCount(|m|) && c.After(p) && p == m + [0x80] + Zeros(k)
      decreases ZeroCount(|m|) - k
    {
      PadOne(c, m, p, k);
      p, k := p + [0], k + 1;
    }
    Position(|p|, c.low);
    PaddingStops(|m|, k);
  }

  method PadOne(c: Context, ghost m: seq<Byte>, ghost p: seq<Byte>, ghost k: nat)
    requires c.After(p) && p == m + [0x80] + Zeros(k) && k <= ZeroCount(|m|) && c.low / 8 % 64 != 56
    modifies c, c.buffer
    ensures k < ZeroCount(|m|) && c.After(p + [0]) && p + [0] == m + [0x80] + Zeros(k + 1)
  {
    Position(|p|, c.low);
    PaddingStops(|m|, k);
    c.Update([0], p);
    MoreZeros(m + [0x80], k);
  }

  lemma PaddedWhole(m: seq<Byte>, p: seq<Byte>, count: seq<Byte>)
    requires p == m + [0x80] + Zeros(ZeroCount(|m|))
    ensures p + count == m + ([0x80] + Zeros(ZeroCount(|m|)) + count)
  {
  }

  lemma MoreZeros(m: seq<Byte>, k: nat)
    ensures m + Zeros(k) + [0] == m + Zeros(k + 1)
  {
    assert Zeros(k) + [0] == Zeros(k + 1);
  }

  method Wipe(c: Context)
    modifies c, c.buffer
    requires c.Valid()
    ensures c.low == c.high == 0 && c.state == Hash(0, 0, 0, 0, 0) && c.buffer[..] == Zeros(64)
  {
    forall i | 0 <= i < 64 {
      c.buffer[i] := 0;
    }
    c.state := Hash(0, 0, 0, 0, 0);
    c.low, c.high := 0, 0;
  }

  // ---------- The whole hash ----------

  /** crypt_sha1. One call takes the whole buffer, so from 2^29 bytes on its bit count is 2^32 too large. */
  method CryptSha1(data: seq<Byte>) returns (digest: seq<Byte>)
    requires |data| < 0x8000_0000
    ensures |data| < CALL_LIMIT ==> digest == Sha1(data)
    ensures |data| >= CALL_LIMIT ==> digest == HashBytes(Digest(INITIAL, data + PaddingFor(|data|, 8 * |data| + TWO_32)))
  {
    var c := new Context();
    c.Update(data, []);
    assert [] + data == data;
    OneCallCounts(|data|);
    digest := Final(c, data);
  }

  lemma OneCallCounts(length: nat)
    requires length < 0x8000_0000
    ensures Bits(Counted(Count(0, 0), length)) == if length < CALL_LIMIT then 8 * length else 8 * length + TWO_32
  {
  }

  function Joined(pieces: seq<seq<Byte>>): seq<Byte> {
    if pieces == [] then [] else Joined(pieces[..|pieces| - 1]) + pieces[|pieces| - 1]
  }

  /** Any way of cutting a message into calls of less than 2^29 bytes gives its SHA-1 value. */
  method HashInPieces(pieces: seq<seq<Byte>>) returns (digest: seq<Byte>)
    requires forall i :: 0 <= i < |pieces| ==> |pieces[i]| < CALL_LIMIT
    requires 8 * |Joined(pieces)| < TWO_64
    ensures digest == Sha1(Joined(pieces))
  {
    ghost var m := Joined(pieces);
    var c := FeedPieces(pieces, m);
    digest := FinalCounted(c, m);
  }

  method FinalCounted(c: Context, ghost m: seq<Byte>) returns (digest: seq<Byte>)
    requires Counts(c, m) && 8 * |m| < TWO_64
    modifies c, c.buffer
    ensures digest == Sha1(m)
  {
    assert Bits(Count(c.low, c.high)) == 8 * |m|;
    digest := Final(c, m);
  }

  /** A context that has counted every bit. */
  ghost predicate Counts(c: Context, m: seq<Byte>)
    reads c, c.buffer
  {
    c.After(m) && Bits(Count(c.low, c.high)) == 8 * |m| % TWO_64
  }

  /** However the bytes came in, the context is the same, but for stale bytes behind the tail in the buffer. */
  lemma ContextDetermined(c: Context, d: Context, m: seq<Byte>)
    requires Counts(c, m) && Counts(d, m)
    ensures c.state == d.state && c.low == d.low && c.high == d.high
    ensures c.buffer[..Rest(|m|)] == d.buffer[..Rest(|m|)]
  {
    assert TWO_32 * c.high == Bits(Count(c.low, c.high)) - c.low;
    assert c.buffer[..Rest(|m|)] == c.buffer[..][..Rest(|m|)];
    assert d.buffer[..Rest(|m|)] == d.buffer[..][..Rest(|m|)];
  }

  method FeedPieces(pieces: seq<seq<Byte>>, ghost whole: seq<Byte>) returns (c: Context)
    requires forall i :: 0 <= i < |pieces| ==> |pieces[i]| < CALL_LIMIT
    requires whole == Joined(pieces)
    ensures fresh(c) && fresh(c.buffer) && Counts(c, whole)
  {
    c := new Context();
    var i := 0;
    ghost var m: seq<Byte> := [];
    while i < |pieces|
      invariant i <= |pieces| && m == Joined(pieces[..i]) && Counts(c, m) && fresh(c) && fresh(c.buffer)
    {
      JoinedNext(pieces, i);
      FeedPiece(c, pieces[i], m);
      m := m + pieces[i];
      i := i + 1;
    }
    assert pieces[..i] == pieces;
  }

  method FeedPiece(c: Context, piece: seq<Byte>, ghost m: seq<Byte>)
    requires Counts(c, m) && |piece| < CALL_LIMIT
    modifies c, c.buffer
    ensures Counts(c, m + piece)
  {
    CountedRightIff(Count(c.low, c.high), |piece|);
    CountsOn(|m|, |piece|);
    c.Update(piece, m);
  }

  lemma JoinedNext(pieces: seq<seq<Byte>>, i: nat)
    requires i < |pieces|
    ensures Joined(pieces[..i + 1]) == Joined(pieces[..i]) + pieces[i]
  {
    assert pieces[..i + 1][..i] == pieces[..i];
  }

  lemma CountsOn(n: nat, length: nat)
    ensures (8 * n % TWO_64 + 8 * length) % TWO_64 == 8 * (n + length) % TWO_64
  {
    var k := 8 * n / TWO_64;
    assert 8 * (n + length) == TWO_64 * k + (8 * n % TWO_64 + 8 * length);
  }
}
