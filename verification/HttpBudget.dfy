/** The header size limit of http_parser.c: how far nread can get along an input, however the input is cut into calls. */
module HttpBudget {
  import opened CStrings
  import opened HttpStates
  import opened HttpReference

  const HTTP_MAX_HEADER_SIZE: nat := 80 * 1024

  /** A byte of a header name or value that the parser reads in a loop. */
  predicate InRun(s: State, ch: char) {
    (s.HeaderField? && Token(ch).Some?) || (s.HeaderValue? && ch != CR && ch != LF)
  }

  /** What a byte adds to nread at most. A call that ends within a header name or value counts one byte too many, so the worst
      cut, behind every byte, counts those bytes twice. */
  function Cost(s: State, ch: char): nat {
    if InRun(s, ch) then 2 else if ParsingHeader(s) then 1 else 0
  }

  /** The count starts over: behind the header of a message, a chunk head, the data of a chunk. */
  predicate StartsOver(f: Fields, t: Turn) {
    f.state.ChunkSizeAlmostDone? || f.state.ChunkDataDone? || HeaderTold(t)
  }

  /** The turn ended the header of a message. */
  predicate HeaderTold(t: Turn) {
    t.atoms != [] && t.atoms[0] == Note(HeadersComplete)
  }

  function Counted(f: Fields, n: nat, ch: char): nat
    requires Legal(f)
  {
    if StartsOver(f, Next(f, ch)) then 0 else n + Cost(f.state, ch)
  }

  /** The next byte is accepted, wherever calls begin and end. */
  predicate Accepted(f: Fields, n: nat, ch: char)
    requires Legal(f)
  {
    && (ParsingHeader(f.state) ==> n + Cost(f.state, ch) <= HTTP_MAX_HEADER_SIZE)
    && !Unchecked(f, ch) && !Ended(Next(f, ch))
  }

  /** nread behind `s` at most, starting from `n`; or nothing, if the limit can be passed or the run can end before. */
  function Tally(f: Fields, n: nat, s: string): Option<nat>
    requires Legal(f)
    decreases |s|
  {
    if s == "" then Some(n)
    else if !Accepted(f, n, s[0]) then None
    else
      NextLegal(f, s[0]);
      Tally(Next(f, s[0]).f, Counted(f, n, s[0]), s[1..])
  }

  lemma TallyNext(f: Fields, n: nat, s: string) returns (g: Fields, m: nat)
    requires Legal(f) && s != "" && Tally(f, n, s).Some?
    ensures Accepted(f, n, s[0]) && g == Next(f, s[0]).f && Legal(g) && m == Counted(f, n, s[0])
    ensures Tally(g, m, s[1..]) == Tally(f, n, s)
  {
    NextLegal(f, s[0]);
    g, m := Next(f, s[0]).f, Counted(f, n, s[0]);
  }

  lemma TallyStep(f: Fields, n: nat, s: string) returns (g: Fields, m: nat)
    requires Legal(f) && s != "" && Accepted(f, n, s[0])
    ensures g == Next(f, s[0]).f && Legal(g) && m == Counted(f, n, s[0])
    ensures Tally(f, n, s) == Tally(g, m, s[1..])
  {
    NextLegal(f, s[0]);
    g, m := Next(f, s[0]).f, Counted(f, n, s[0]);
  }

  lemma {:induction false} TallyJoin(f: Fields, n: nat, a: string, b: string)
    requires Legal(f)
    ensures Tally(f, n, a).Some? ==> !Ended(Fold(f, a)) && Legal(Fold(f, a).f)
    ensures Tally(f, n, a + b) ==
      if Tally(f, n, a) == None then None else Tally(Fold(f, a).f, Tally(f, n, a).value, b)
    decreases |a|
  {
    if a == "" {
      assert a + b == b;
    } else {
      assert (a + b)[1..] == a[1..] + b;
      if Accepted(f, n, a[0]) {
        NextLegal(f, a[0]);
        TallyJoin(Next(f, a[0]).f, Counted(f, n, a[0]), a[1..], b);
        FoldStep(f, a);
      }
    }
  }

  lemma {:induction false} TallyLess(f: Fields, m: nat, n: nat, s: string)
    requires Legal(f) && m <= n && Tally(f, n, s).Some?
    ensures Tally(f, m, s).Some?
    decreases |s|
  {
    if s != "" {
      var g, k := TallyNext(f, n, s);
      var h, j := TallyStep(f, m, s);
      TallyLess(g, j, k, s[1..]);
    }
  }

  /** Input that the reference takes and that is short is within the limit. */
  lemma {:induction false} ShortFits(f: Fields, n: nat, s: string)
    requires Legal(f) && Calm(f, s) && !Ended(Fold(f, s)) && n + 2 * |s| <= HTTP_MAX_HEADER_SIZE
    ensures Tally(f, n, s).Some?
    decreases |s|
  {
    if s != "" {
      FoldStep(f, s);
      var g, m := TallyStep(f, n, s);
      ShortFits(g, m, s[1..]);
    }
  }

  // ---------- header text ----------

  /** Bytes of a header name, or of a header value. */
  predicate HeaderText(f: Fields, s: string) {
    forall i :: 0 <= i < |s| ==> InRun(f.state, s[i])
  }

  lemma TextNext(f: Fields, n: nat, ch: char)
    requires Legal(f) && InRun(f.state, ch)
    ensures Counted(f, n, ch) == n + 2 && (!Ended(Next(f, ch)) ==> Next(f, ch).f.state == f.state)
  {
    TextStays(f, ch);
  }

  lemma TextStays(f: Fields, ch: char)
    ensures ValueChar(f, ch).state == f.state && (Token(ch).Some? ==> FieldChar(f, ch, Token(ch).value).state == f.state)
  {
  }

  lemma {:induction false} TextCounts(f: Fields, n: nat, s: string, rest: string) returns (m: nat)
    requires Legal(f) && HeaderText(f, s) && Tally(f, n, s + rest).Some?
    ensures m == n + 2 * |s| && (s != "" ==> m <= HTTP_MAX_HEADER_SIZE)
    ensures !Ended(Fold(f, s)) && Legal(Fold(f, s).f) && Tally(Fold(f, s).f, m, rest).Some?
    decreases |s|
  {
    if s == "" {
      assert s + rest == rest;
      m := n;
    } else {
      var tail := s[1..];
      assert (s + rest)[1..] == tail + rest && (s + rest)[0] == s[0];
      TextNext(f, n, s[0]);
      var g, k := TallyNext(f, n, s + rest);
      m := TextCounts(g, k, tail, rest);
      FoldStep(f, s);
    }
  }

  // ---------- chunk heads ----------

  predicate ChunkHead(s: State) {
    s.ChunkSizeStart? || s.ChunkSize? || s.ChunkParameters? || s.ChunkSizeAlmostDone?
  }

  /** A chunk head is counted byte by byte, up to its last byte. */
  lemma {:induction false} ChunkHeadCounts(f: Fields, n: nat, s: string)
    requires Legal(f) && ChunkHead(f.state) && !Ended(Fold(f, s)) && Fold(f, s).atoms == [] && n + |s| <= HTTP_MAX_HEADER_SIZE
    ensures Tally(f, n, s) == Some(n + |s|)
    decreases |s|
  {
    if s != "" {
      SilentStep(f, s);
      ChunkHeadNext(f, n, s[0], Next(f, s[0]));
      var g, m := TallyStep(f, n, s);
      ChunkHeadCounts(g, m, s[1..]);
    }
  }

  lemma SilentStep(f: Fields, s: string)
    requires Legal(f) && s != "" && !Ended(Fold(f, s)) && Fold(f, s).atoms == []
    ensures var t := Next(f, s[0]); !Ended(t) && t.atoms == [] && Legal(t.f) && !Ended(Fold(t.f, s[1..])) && Fold(t.f, s[1..]).atoms == []
  {
    FoldStep(f, s);
  }

  lemma ChunkHeadNext(f: Fields, n: nat, ch: char, t: Turn)
    requires Legal(f) && ChunkHead(f.state) && t == Next(f, ch) && !Ended(t) && t.atoms == [] && n < HTTP_MAX_HEADER_SIZE
    ensures ChunkHead(t.f.state) && Accepted(f, n, ch) && Counted(f, n, ch) == n + 1
  {
  }

  // ---------- bodies ----------

  /** Data of a body. */
  predicate BodyBytes(f: Fields, s: string) {
    f.state.BodyIdentityEof? || ((f.state.BodyIdentity? || f.state.ChunkData?) && |s| <= f.contentLength)
  }

  lemma BodyBytesNext(f: Fields, s: string, n: nat)
    requires Legal(f) && s != "" && BodyBytes(f, s) && !Ended(Next(f, s[0]))
    ensures |s| > 1 ==> BodyBytes(Next(f, s[0]).f, s[1..])
    ensures Counted(f, n, s[0]) == n
  {
  }

  /** Data is not counted. */
  lemma {:induction false} DataIsFree(f: Fields, n: nat, s: string, rest: string)
    requires Legal(f) && BodyBytes(f, s) && Tally(f, n, s + rest).Some?
    ensures !Ended(Fold(f, s)) && Legal(Fold(f, s).f)
    ensures Tally(f, n, s + rest) == Tally(Fold(f, s).f, n, rest)
    decreases |s|
  {
    if s == "" {
      assert s + rest == rest;
    } else {
      assert (s + rest)[1..] == s[1..] + rest && (s + rest)[0] == s[0];
      var g, m := TallyNext(f, n, s + rest);
      BodyBytesNext(f, s, n);
      if |s| > 1 {
        DataIsFree(g, n, s[1..], rest);
      } else {
        assert s[1..] == "" && s[1..] + rest == rest;
      }
      FoldStep(f, s);
    }
  }
}
