/** sha1.c: the in-place transform, block buffering and padding. */
module Sha1Transform {
  import opened Fips180

  // ---------- SHA1_Transform ----------

  /** blk0 on a machine that keeps the least significant byte first: the word is turned round. */
  function Turned(l: Word): Word {
    (((l << 24) | (l >> 8)) & 0xFF00FF00) | (((l << 8) | (l >> 24)) & 0x00FF00FF)
  }

  function LittleEndian(b0: Byte, b1: Byte, b2: Byte, b3: Byte): Word {
    b0 | (b1 << 8) | (b2 << 16) | (b3 << 24)
  }

  lemma TurnedLoads(b0: Byte, b1: Byte, b2: Byte, b3: Byte)
    ensures Turned(LittleEndian(b0, b1, b2, b3)) == BigEndian(b0, b1, b2, b3)
  {
  }

  /** The round functions as the macros R0 to R4 write them. */
  function Mix(t: nat, w: Word, x: Word, y: Word): Word {
    if t < 20 then (w & (x ^ y)) ^ y
    else if 40 <= t < 60 then ((w | x) & y) | (w & x)
    else w ^ x ^ y
  }

  lemma MixIsCh(w: Word, x: Word, y: Word)
    ensures (w & (x ^ y)) ^ y == Ch(w, x, y)
  {
  }

  lemma MixIsMaj(w: Word, x: Word, y: Word)
    ensures ((w | x) & y) | (w & x) == Maj(w, x, y)
  {
  }

  lemma MixIsF(t: nat, w: Word, x: Word, y: Word)
    ensures Mix(t, w, x, y) == F(t, w, x, y)
  {
    MixIsCh(w, x, y);
    MixIsMaj(w, x, y);
  }

  /** The 16 words in place of the schedule: each slot holds the latest word of its class before `t`. */
  predicate Schedule(l: seq<Word>, block: seq<Byte>, t: nat)
    requires |block| == 64
  {
    |l| == 16 && forall s: nat :: s < t && t <= s + 16 ==> l[s % 16] == W(block, s)
  }

  lemma ScheduleNext(l: seq<Word>, block: seq<Byte>, t: nat)
    requires |block| == 64 && t >= 16 && Schedule(l, block, t)
    ensures Rotl1(l[(t + 13) % 16] ^ l[(t + 8) % 16] ^ l[(t + 2) % 16] ^ l[t % 16]) == W(block, t)
    ensures Schedule(l[t % 16 := W(block, t)], block, t + 1)
  {
    assert (t + 13) % 16 == (t - 3) % 16 && (t + 8) % 16 == (t - 8) % 16;
    assert (t + 2) % 16 == (t - 14) % 16 && t % 16 == (t - 16) % 16;
    assert l[(t - 3) % 16] == W(block, t - 3) && l[(t - 8) % 16] == W(block, t - 8);
    assert l[(t - 14) % 16] == W(block, t - 14) && l[(t - 16) % 16] == W(block, t - 16);
    ScheduleSet(l, block, t, W(block, t));
  }

  lemma ScheduleSet(l: seq<Word>, block: seq<Byte>, t: nat, w: Word)
    requires |block| == 64 && Schedule(l, block, t) && w == W(block, t)
    ensures Schedule(l[t % 16 := w], block, t + 1)
  {
    var l' := l[t % 16 := w];
    forall s: nat | s < t + 1 && t + 1 <= s + 16 ensures l'[s % 16] == W(block, s) {
      if s < t {
        assert s % 16 != t % 16;
      }
    }
  }

  /** The words of the block before `t` are loaded, the others still as they were copied. */
  predicate Loaded(l: seq<Word>, block: seq<Byte>, t: nat)
    requires |block| == 64
  {
    && |l| == 16
    && (forall s: nat :: s < t && s < 16 ==> l[s] == W(block, s))
    && (forall s: nat :: t <= s < 16 ==> l[s] == LittleEndian(block[4 * s], block[4 * s + 1], block[4 * s + 2], block[4 * s + 3]))
  }

  /** What the 16 words hold before round `t`. */
  predicate Ready(l: seq<Word>, block: seq<Byte>, t: nat)
    requires |block| == 64
  {
    if t < 16 then Loaded(l, block, t) else Schedule(l, block, t)
  }

  /** What blk0 or blk stores and uses in round `t`. */
  method NextWord(l: array<Word>, ghost block: seq<Byte>, t: nat) returns (w: Word)
    requires l.Length == 16 && |block| == 64 && Ready(l[..], block, t)
    modifies l
    ensures w == W(block, t) && Ready(l[..], block, t + 1)
  {
    ghost var before := l[..];
    if t < 16 {
      w := Turned(l[t]);
      TurnedLoads(block[4 * t], block[4 * t + 1], block[4 * t + 2], block[4 * t + 3]);
      l[t] := w;
      assert l[..] == before[t := w];
    } else {
      w := Rotl1(l[(t + 13) % 16] ^ l[(t + 8) % 16] ^ l[(t + 2) % 16] ^ l[t % 16]);
      ScheduleNext(l[..], block, t);
      l[t % 16] := w;
      assert l[..] == before[t % 16 := w];
    }
  }

  /** The five working variables in the roles they have in round `t`: nothing is moved, the names go round. */
  function Roles(r: seq<Word>, t: nat): Hash
    requires |r| == 5
  {
    Hash(r[(4 * t) % 5], r[(4 * t + 1) % 5], r[(4 * t + 2) % 5], r[(4 * t + 3) % 5], r[(4 * t + 4) % 5])
  }

  /** The sum a round stores, with the terms in the order of the macros. */
  function Stored(z: Word, f: Word, w: Word, k: Word, r: Word): Word { z + (f + w + k + r) }

  lemma StoredIsTotal(z: Word, f: Word, w: Word, k: Word, r: Word)
    ensures Stored(z, f, w, k, r) == Total(r, f, z, k, w)
  {
  }

  lemma StoredIsRound(t: nat, v: Word, w: Word, x: Word, y: Word, z: Word, word: Word)
    ensures Hash(Stored(z, Mix(t, w, x, y), word, K(t), Rotl5(v)), v, Rotl30(w), x, y)
         == Round(Hash(v, w, x, y, z), t, word)
  {
    MixIsF(t, w, x, y);
    StoredIsTotal(z, F(t, w, x, y), word, K(t), Rotl5(v));
  }

  /** Where the roles are in the next round. */
  lemma NamesGoRound(t: nat)
    ensures var v, w, x, y, z := (4 * t) % 5, (4 * t + 1) % 5, (4 * t + 2) % 5, (4 * t + 3) % 5, (4 * t + 4) % 5;
      && (4 * (t + 1)) % 5 == z && (4 * (t + 1) + 1) % 5 == v && (4 * (t + 1) + 2) % 5 == w
      && (4 * (t + 1) + 3) % 5 == x && (4 * (t + 1) + 4) % 5 == y
      && v != w && v != z && w != x && w != y && w != z && x != z && y != z
  {
  }

  lemma RolesTurn(r: seq<Word>, r': seq<Word>, t: nat, n: Word, u: Word, h: Hash)
    requires |r| == 5 && h == Roles(r, t)
    requires r' == r[(4 * t + 4) % 5 := n][(4 * t + 1) % 5 := u]
    ensures Roles(r', t + 1) == Hash(n, h.a, u, h.c, h.d)
  {
    NamesGoRound(t);
  }

  /** One of the 80 operations: two of the variables change in place. */
  method RoundStep(r: array<Word>, t: nat, word: Word)
    requires r.Length == 5
    modifies r
    ensures Roles(r[..], t + 1) == Round(Roles(old(r[..]), t), t, word)
  {
    ghost var before := r[..];
    ghost var h := Roles(before, t);
    var w, z := (4 * t + 1) % 5, (4 * t + 4) % 5;
    var n := Stored(r[z], Mix(t, r[w], r[(4 * t + 2) % 5], r[(4 * t + 3) % 5]), word, K(t), Rotl5(r[(4 * t) % 5]));
    StoredIsRound(t, h.a, h.b, h.c, h.d, h.e, word);
    var u := Rotl30(r[w]);
    r[z], r[w] := n, u;
    RolesTurn(before, r[..], t, n, u, h);
  }

  lemma RolesReturn(r: seq<Word>, t: nat)
    requires |r| == 5 && t % 5 == 0
    ensures Roles(r, t) == Roles(r, 0)
  {
    assert 4 * t % 5 == 0;
  }

  lemma RoundsNext(h: Hash, block: seq<Byte>, t: nat, g: Hash, w: Word)
    requires |block| == 64 && g == Rounds(h, block, t) && w == W(block, t)
    ensures Round(g, t, w) == Rounds(h, block, t + 1)
  {
  }

  /** SHA1_Transform. After a multiple of five operations the variables are back in their places. */
  method Transform(h: Hash, block: seq<Byte>, rounds: nat) returns (h': Hash)
    requires |block| == 64 && rounds % 5 == 0
    ensures h' == Compress(h, block, rounds)
  {
    var l := CopyBlock(block);
    var r := Working(h);
    var t := 0;
    while t < rounds
      invariant t <= rounds && Roles(r[..], t) == Rounds(h, block, t) && Ready(l[..], block, t)
    {
      ghost var g := Roles(r[..], t);
      var word := NextWord(l, block, t);
      RoundsNext(h, block, t, g, word);
      RoundStep(r, t, word);
      t := t + 1;
    }
    RolesReturn(r[..], t);
    h' := AddBack(h, r);
  }

  /** memcpy into the union of bytes and words. */
  method CopyBlock(block: seq<Byte>) returns (l: array<Word>)
    requires |block| == 64
    ensures fresh(l) && l.Length == 16 && Ready(l[..], block, 0)
  {
    l := new Word[16];
    var i := 0;
    while i < 16
      invariant i <= 16
      invariant forall s: nat :: s < i ==> l[s] == LittleEndian(block[4 * s], block[4 * s + 1], block[4 * s + 2], block[4 * s + 3])
    {
      l[i] := LittleEndian(block[4 * i], block[4 * i + 1], block[4 * i + 2], block[4 * i + 3]);
      i := i + 1;
    }
  }

  method Working(h: Hash) returns (r: array<Word>)
    ensures fresh(r) && r.Length == 5 && Roles(r[..], 0) == h
  {
    r := new Word[5];
    r[0], r[1], r[2], r[3], r[4] := h.a, h.b, h.c, h.d, h.e;
  }

  method AddBack(h: Hash, r: array<Word>) returns (h': Hash)
    requires r.Length == 5
    ensures h' == Sum(h, Roles(r[..], 0))
  {
    h' := Hash(Plus(h.a, r[0]), Plus(h.b, r[1]), Plus(h.c, r[2]), Plus(h.d, r[3]), Plus(h.e, r[4]));
  }
}
