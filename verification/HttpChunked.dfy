/** Input in pieces: however it is cut, the parser does the same; and what a chunked body (section 3.6.1 of RFC 2616) delivers. */
module HttpChunked {
  import opened CStrings
  import opened HttpStates
  import opened HttpReference
  import opened HttpBudget
  import opened HttpRuns
  import opened HttpParser
  import opened HttpTrailers

  // ---------- pieces ----------

  function Concat(pieces: seq<string>): string {
    if pieces == [] then "" else Concat(pieces[..|pieces| - 1]) + pieces[|pieces| - 1]
  }

  lemma {:induction false} StopUpgrade(f: Fields, s: string)
    requires Legal(f) && Fold(f, s).stop
    ensures Fold(f, s).f.upgrade
    decreases |s|
  {
    FoldStep(f, s);
    if !Ended(Next(f, s[0])) {
      StopUpgrade(Next(f, s[0]).f, s[1..]);
    }
  }

  lemma {:induction false} ConcatPrefix(pieces: seq<string>, i: nat) returns (rest: string)
    requires i <= |pieces|
    ensures Concat(pieces) == Concat(pieces[..i]) + rest
    decreases |pieces|
  {
    if i == |pieces| {
      assert pieces[..i] == pieces;
      rest := "";
    } else {
      var front := pieces[..|pieces| - 1];
      var r := ConcatPrefix(front, i);
      assert front[..i] == pieces[..i];
      rest := r + pieces[|pieces| - 1];
      assert Concat(pieces[..i]) + r + pieces[|pieces| - 1] == Concat(pieces[..i]) + rest;
    }
  }

  /** One piece after the other, as long as the parser takes them whole and stays with HTTP. The result does not depend on
      how the input was cut; and where the reference goes on, only the header size limit, another protocol, or a byte that is
      checked or not as the input is cut, can end the run. Input that the limit leaves room for under every cut goes through,
      and so does input that is short. */
  method Feed(parser: Parser, pieces: seq<string>) returns (ok: bool)
    requires parser.Valid() && parser.f.errno.OK? && forall i :: 0 <= i < |pieces| ==> pieces[i] != ""
    modifies parser
    ensures parser.Valid()
    ensures var t := Fold(old(parser.f), Concat(pieces));
      ok ==> parser.f.errno.OK? && !Ended(t) && parser.f == t.f && Atoms(parser.said) == old(Atoms(parser.said)) + t.atoms
    ensures !ok ==> parser.TooLong() || !Calm(old(parser.f), Concat(pieces)) || Ended(Fold(old(parser.f), Concat(pieces)))
    ensures old(parser.Affordable(Concat(pieces))) && Calm(old(parser.f), Concat(pieces)) ==> ok
    ensures old(parser.nread) + 2 * |Concat(pieces)| <= HTTP_MAX_HEADER_SIZE && Calm(old(parser.f), Concat(pieces)) ==>
      (ok <==> !Ended(Fold(old(parser.f), Concat(pieces))))
  {
    ghost var f0, before := parser.f, Atoms(parser.said);
    ghost var can := parser.Affordable(Concat(pieces));
    ghost var later := Concat(pieces);
    ShortRun(parser.f, parser.nread, later);
    var i := 0;
    assert Concat(pieces[..0]) == "" && before + [] == before && "" + later == later;
    while i < |pieces|
      invariant i <= |pieces| && Fed(parser, f0, before, pieces, i, later, can)
    {
      ok, later := FeedOne(parser, f0, before, pieces, i, later, can);
      if !ok {
        return;
      }
      i := i + 1;
    }
    assert pieces[..i] == pieces;
    return true;
  }

  lemma ShortRun(f: Fields, n: nat, s: string)
    requires Legal(f)
    ensures Calm(f, s) && !Ended(Fold(f, s)) && n + 2 * |s| <= HTTP_MAX_HEADER_SIZE ==> Tally(f, n, s).Some?
  {
    if Calm(f, s) && !Ended(Fold(f, s)) && n + 2 * |s| <= HTTP_MAX_HEADER_SIZE {
      ShortFits(f, n, s);
    }
  }

  /** After `i` pieces all is as the reference has it, and the rest is affordable if the whole was. */
  ghost predicate Fed(parser: Parser, f0: Fields, before: seq<Atom>, pieces: seq<string>, i: nat, later: string, can: bool)
    requires Legal(f0) && i <= |pieces|
    reads parser
  {
    var t := Fold(f0, Concat(pieces[..i]));
    && parser.Valid() && parser.f.errno.OK? && !Ended(t) && parser.f == t.f && Atoms(parser.said) == before + t.atoms
    && Concat(pieces) == Concat(pieces[..i]) + later && (can ==> parser.Affordable(later))
  }

  method FeedOne(parser: Parser, ghost f0: Fields, ghost before: seq<Atom>, pieces: seq<string>, i: nat, ghost later: string, ghost can: bool)
    returns (ok: bool, ghost rest: string)
    requires i < |pieces| && pieces[i] != "" && Legal(f0) && Fed(parser, f0, before, pieces, i, later, can)
    modifies parser
    ensures parser.Valid()
    ensures ok ==> Fed(parser, f0, before, pieces, i + 1, rest, can)
    ensures !ok ==> parser.TooLong() || !Calm(f0, Concat(pieces)) || Ended(Fold(f0, Concat(pieces)))
    ensures can && Calm(f0, Concat(pieces)) ==> ok
  {
    rest := ConcatPrefix(pieces, i + 1);
    PieceFold(f0, pieces, i, rest, before);
    LaterIs(pieces, i, later, rest);
    if can {
      TallyJoin(parser.f, parser.nread, pieces[i], rest);
    }
    var parsed := parser.Execute(pieces[i], rest);
    if !parser.f.errno.OK? {
      PieceRefused(f0, pieces, i, rest, parsed, parser.f.errno);
    }
    ok := parser.f.errno.OK? && parsed == |pieces[i]| && !parser.f.upgrade;
  }

  /** A piece that is refused, in the whole input. */
  lemma PieceRefused(f: Fields, pieces: seq<string>, i: nat, rest: string, k: nat, e: Errno)
    requires i < |pieces| && Legal(f) && Concat(pieces) == Concat(pieces[..i + 1]) + rest
    requires !Ended(Fold(f, Concat(pieces[..i])))
    ensures Legal(Fold(f, Concat(pieces[..i])).f)
    ensures k < |pieces[i]| && Refused(Fold(f, Concat(pieces[..i])).f, pieces[i][0..k], pieces[i][k], e) ==>
      !Calm(f, Concat(pieces)) || Ended(Fold(f, Concat(pieces)))
  {
    assert pieces[..i + 1][..i] == pieces[..i];
    var a, b := Concat(pieces[..i]), pieces[i];
    FoldJoin(f, a, b);
    if k < |b| && Refused(Fold(f, a).f, b[0..k], b[k], e) {
      RefusedWithin(Fold(f, a).f, b, k, e);
      FoldJoin(f, a + b, rest);
      CalmJoin(f, a + b, rest);
      CalmJoin(f, a, b);
    }
  }

  lemma RefusedWithin(f: Fields, s: string, k: nat, e: Errno)
    requires Legal(f) && k < |s| && Refused(f, s[0..k], s[k], e)
    ensures !Calm(f, s) || Ended(Fold(f, s))
  {
    var a, b := s[0..k], s[k..];
    assert s == a + b && b[0] == s[k];
    FoldJoin(f, a, b);
    CalmJoin(f, a, b);
    FoldStep(Fold(f, a).f, b);
  }

  lemma LaterIs(pieces: seq<string>, i: nat, later: string, rest: string)
    requires i < |pieces| && Concat(pieces) == Concat(pieces[..i]) + later && Concat(pieces) == Concat(pieces[..i + 1]) + rest
    ensures later == pieces[i] + rest
  {
    var a, b := Concat(pieces[..i]), pieces[i];
    assert pieces[..i + 1][..i] == pieces[..i];
    SameTail(a, b, rest, later, Concat(pieces));
  }

  lemma SameTail(a: string, b: string, rest: string, later: string, whole: string)
    requires whole == a + later && whole == a + b + rest
    ensures later == b + rest
  {
    assert later == whole[|a|..] && b + rest == whole[|a|..];
  }

  lemma PieceFold(f: Fields, pieces: seq<string>, i: nat, rest: string, before: seq<Atom>)
    requires i < |pieces| && Legal(f) && Concat(pieces) == Concat(pieces[..i + 1]) + rest
    requires !Ended(Fold(f, Concat(pieces[..i])))
    ensures Legal(Fold(f, Concat(pieces[..i])).f)
    ensures var t, u := Fold(f, Concat(pieces[..i])), Fold(Fold(f, Concat(pieces[..i])).f, pieces[i]);
      && Fold(f, Concat(pieces[..i + 1])) == Both(t, u)
      && before + t.atoms + u.atoms == before + Both(t, u).atoms
      && (Ended(u) ==> Ended(Fold(f, Concat(pieces))))
      && (u.stop ==> u.f.upgrade)
      && (Calm(f, Concat(pieces)) ==> Calm(t.f, pieces[i]) && (!Ended(u) ==> !u.f.upgrade))
  {
    assert pieces[..i + 1][..i] == pieces[..i];
    var a, b := Concat(pieces[..i]), pieces[i];
    FoldJoin(f, a, b);
    var t, u := Fold(f, a), Fold(Fold(f, a).f, b);
    FoldJoin(f, a + b, rest);
    if u.stop {
      StopUpgrade(t.f, b);
    }
    if Calm(f, Concat(pieces)) {
      PieceCalm(f, a, b, rest);
    }
    Appended(before, t, u);
  }

  lemma PieceCalm(f: Fields, a: string, b: string, rest: string)
    requires Legal(f) && Calm(f, a + b + rest) && !Ended(Fold(f, a))
    ensures Legal(Fold(f, a).f) && Calm(Fold(f, a).f, b)
    ensures var u := Fold(Fold(f, a).f, b); !Ended(u) ==> !u.f.upgrade
  {
    CalmJoin(f, a + b, rest);
    CalmJoin(f, a, b);
    if !Ended(Fold(Fold(f, a).f, b)) {
      CalmEnd(Fold(f, a).f, b);
    }
  }

  lemma CalmEnd(f: Fields, s: string)
    requires Legal(f) && Calm(f, s) && !Ended(Fold(f, s))
    ensures !Fold(f, s).f.upgrade
  {
    assert s + "" == s;
    CalmJoin(f, s, "");
  }

  // ---------- chunks ----------

  /** A chunk: its size in hexadecimal digits, an extension, and its data. */
  datatype Chunk = Chunk(size: string, extension: string, data: string)

  function Head(c: Chunk): string {
    c.size + c.extension + CRLF
  }

  function Text(c: Chunk): string {
    Head(c) + c.data + CRLF
  }

  function Texts(chunks: seq<Chunk>): string {
    if chunks == [] then "" else Text(chunks[0]) + Texts(chunks[1..])
  }

  /** The whole body: the chunks, a chunk of size 0, and the trailer. */
  function BodyText(chunks: seq<Chunk>, last: Chunk, trailer: seq<Trailer>): string {
    Texts(chunks) + Head(last) + TrailerText(trailer)
  }

  function Payload(chunks: seq<Chunk>): string {
    if chunks == [] then "" else chunks[0].data + Payload(chunks[1..])
  }

  const HEX: map<char, nat> :=
    map['0' := 0, '1' := 1, '2' := 2, '3' := 3, '4' := 4, '5' := 5, '6' := 6, '7' := 7, '8' := 8, '9' := 9,
        'a' := 10, 'b' := 11, 'c' := 12, 'd' := 13, 'e' := 14, 'f' := 15,
        'A' := 10, 'B' := 11, 'C' := 12, 'D' := 13, 'E' := 14, 'F' := 15]

  predicate IsHex(c: char) {
    c in HEX
  }

  function HexOf(c: char): nat
    requires IsHex(c)
  {
    HEX[c]
  }

  lemma HexIs(c: char)
    ensures Unhex(c) == if IsHex(c) then Some(HexOf(c)) else None
    ensures IsHex(c) ==> c != CR
  {
  }

  predicate Hex(s: string) {
    forall i :: 0 <= i < |s| ==> IsHex(s[i])
  }

  /** The number the digits stand for, behind `v`. */
  function HexFrom(v: nat, s: string): (n: nat)
    requires Hex(s)
    ensures n >= v
    decreases |s|
  {
    if s == "" then v else HexFrom(16 * v + HexOf(s[0]), s[1..])
  }

  predicate Extension(s: string) {
    s != "" ==> (s[0] == ';' || s[0] == ' ') && CR !in s
  }

  predicate HeadFor(c: Chunk, length: nat) {
    c.size != "" && Hex(c.size) && HexFrom(0, c.size) == length && Extension(c.extension)
  }

  /** A chunk as section 3.6.1 of RFC 2616 has it, that fits into the accumulator. */
  predicate WellFormed(c: Chunk) {
    0 < |c.data| <= ULLONG_MAX - 16 && HeadFor(c, |c.data|)
  }

  /** Waiting for a chunk, with no other protocol in sight. */
  predicate AtChunk(f: Fields) {
    Legal(f) && f.state.ChunkSizeStart? && !f.upgrade
  }

  /** Further digits of a size. */
  lemma {:induction false} DigitsGo(f: Fields, s: string)
    requires Legal(f) && f.state.ChunkSize? && !f.upgrade && Hex(s) && HexFrom(f.contentLength, s) <= ULLONG_MAX - 16
    ensures Goes(f, s, f.(contentLength := HexFrom(f.contentLength, s)), [])
    decreases |s|
  {
    if s == "" {
      GoesNothing(f);
    } else {
      var v := 16 * f.contentLength + HexOf(s[0]);
      assert HexFrom(v, s[1..]) >= v;
      var g := f.(contentLength := v);
      DigitGoes(f, s[0]);
      DigitsGo(g, s[1..]);
      GoesJoin(f, [s[0]], g, [], s[1..], f.(contentLength := HexFrom(v, s[1..])), []);
      assert [s[0]] + s[1..] == s;
    }
  }

  lemma DigitGoes(f: Fields, ch: char)
    requires Legal(f) && f.state.ChunkSize? && !f.upgrade && IsHex(ch) && 16 * f.contentLength + HexOf(ch) <= ULLONG_MAX - 16
    ensures Goes(f, [ch], f.(contentLength := 16 * f.contentLength + HexOf(ch)), [])
  {
    HexIs(ch);
    GoesOne(f, ch);
  }

  lemma {:induction false} ParametersGo(f: Fields, s: string)
    requires Legal(f) && f.state.ChunkParameters? && !f.upgrade && CR !in s
    ensures Goes(f, s, f, [])
    decreases |s|
  {
    if s == "" {
      GoesNothing(f);
    } else {
      assert s[0] in s;
      GoesOne(f, s[0]);
      ParametersGo(f, s[1..]);
      GoesJoin(f, [s[0]], f, [], s[1..], f, []);
      assert [s[0]] + s[1..] == s;
    }
  }

  /** The size and the extension. */
  lemma SizeGoes(f: Fields, c: Chunk, length: nat) returns (g: Fields)
    requires AtChunk(f) && HeadFor(c, length) && length <= ULLONG_MAX - 16
    ensures Goes(f, c.size + c.extension, g, []) && (g.state.ChunkSize? || g.state.ChunkParameters?)
    ensures g == f.(contentLength := length, state := g.state)
  {
    var first := HexOf(c.size[0]);
    var f1, f2 := f.(contentLength := first, state := ChunkSize), f.(contentLength := length, state := ChunkSize);
    assert HexFrom(0, c.size) == HexFrom(first, c.size[1..]);
    HexIs(c.size[0]);
    GoesOne(f, c.size[0]);
    DigitsGo(f1, c.size[1..]);
    GoesOn(f, c.size, f1, [], f2, []);
    g := ExtensionGoes(f2, c.extension);
    GoesJoin(f, c.size, f2, [], c.extension, g, []);
  }

  lemma ExtensionGoes(f: Fields, s: string) returns (g: Fields)
    requires Legal(f) && f.state.ChunkSize? && !f.upgrade && Extension(s)
    ensures Goes(f, s, g, []) && g == Goto(f, if s == "" then ChunkSize else ChunkParameters)
  {
    g := Goto(f, if s == "" then ChunkSize else ChunkParameters);
    if s == "" {
      GoesNothing(f);
    } else {
      GoesOne(f, s[0]);
      ParametersGo(g, s[1..]);
      GoesOn(f, s, g, [], g, []);
    }
  }

  function HeadDone(f: Fields): Fields {
    if f.contentLength == 0 then f.(flags := f.flags.(trailing := true), state := HeaderFieldStart) else Goto(f, ChunkData)
  }

  lemma LineBreakGoes(f: Fields)
    requires Legal(f) && (f.state.ChunkSize? || f.state.ChunkParameters?) && !f.upgrade
    ensures Goes(f, CRLF, HeadDone(f), [Note(ChunkHeader)])
  {
    var g := Goto(f, ChunkSizeAlmostDone);
    GoesTwo(f, CR, g, LF, HeadDone(f), [Note(ChunkHeader)]);
  }

  lemma HeadGoes(f: Fields, c: Chunk, length: nat)
    requires AtChunk(f) && HeadFor(c, length) && length <= ULLONG_MAX - 16
    ensures Goes(f, Head(c), HeadDone(f.(contentLength := length)), [Note(ChunkHeader)])
  {
    var g := SizeGoes(f, c, length);
    LineBreakGoes(g);
    GoesJoin(f, c.size + c.extension, g, [], CRLF, HeadDone(g), [Note(ChunkHeader)]);
  }

  lemma {:induction false} DataCalm(f: Fields, s: string)
    requires Legal(f) && f.state.ChunkData? && !f.upgrade && |s| <= f.contentLength
    ensures Calm(f, s)
    decreases |s|
  {
    if |s| > 1 {
      DataCalm(f.(contentLength := f.contentLength - 1), s[1..]);
    } else if |s| == 1 {
      assert s[1..] == "" && Calm(Next(f, s[0]).f, "");
    }
  }

  lemma DataGoes(f: Fields, s: string)
    requires Legal(f) && f.state.ChunkData? && !f.upgrade && |s| == f.contentLength
    ensures Goes(f, s + CRLF, f.(contentLength := 0, state := ChunkSizeStart), Bytes(BODY, s) + [Note(ChunkComplete)])
  {
    var f1 := f.(contentLength := 0, state := ChunkDataAlmostDone);
    ChunkFold(f, s);
    DataCalm(f, s);
    DataEndGoes(f1);
    GoesJoin(f, s, f1, Bytes(BODY, s), CRLF, Goto(f1, ChunkSizeStart), [Note(ChunkComplete)]);
  }

  lemma DataEndGoes(f: Fields)
    requires Legal(f) && f.state.ChunkDataAlmostDone? && !f.upgrade
    ensures Goes(f, CRLF, Goto(f, ChunkSizeStart), [Note(ChunkComplete)])
  {
    GoesTwo(f, CR, Goto(f, ChunkDataDone), LF, Goto(f, ChunkSizeStart), [Note(ChunkComplete)]);
  }

  function ChunkAtoms(c: Chunk): seq<Atom> {
    [Note(ChunkHeader)] + Bytes(BODY, c.data) + [Note(ChunkComplete)]
  }

  lemma ChunkGoes(f: Fields, c: Chunk)
    requires AtChunk(f) && WellFormed(c)
    ensures Goes(f, Text(c), f.(contentLength := 0), ChunkAtoms(c))
  {
    var f1 := HeadDone(f.(contentLength := |c.data|));
    HeadGoes(f, c, |c.data|);
    DataGoes(f1, c.data);
    GoesJoin(f, Head(c), f1, [Note(ChunkHeader)], c.data + CRLF, f.(contentLength := 0), Bytes(BODY, c.data) + [Note(ChunkComplete)]);
    assert Head(c) + (c.data + CRLF) == Text(c);
    assert [Note(ChunkHeader)] + (Bytes(BODY, c.data) + [Note(ChunkComplete)]) == ChunkAtoms(c);
  }

  function AllAtoms(chunks: seq<Chunk>): seq<Atom> {
    if chunks == [] then [] else ChunkAtoms(chunks[0]) + AllAtoms(chunks[1..])
  }

  lemma {:induction false} ChunksGo(f: Fields, chunks: seq<Chunk>)
    requires AtChunk(f) && forall i :: 0 <= i < |chunks| ==> WellFormed(chunks[i])
    ensures Goes(f, Texts(chunks), if chunks == [] then f else f.(contentLength := 0), AllAtoms(chunks))
    decreases |chunks|
  {
    if chunks == [] {
      GoesNothing(f);
    } else {
      var g := f.(contentLength := 0);
      ChunkGoes(f, chunks[0]);
      ChunksGo(g, chunks[1..]);
      GoesJoin(f, Text(chunks[0]), g, ChunkAtoms(chunks[0]), Texts(chunks[1..]), g, AllAtoms(chunks[1..]));
    }
  }

  /** The chunk of size 0 and the trailer: the message is complete, or the trailer is refused. */
  lemma LastGoes(f: Fields, last: Chunk, trailer: seq<Trailer>) returns (g: Fields)
    requires AtChunk(f) && HeadFor(last, 0) && forall i :: 0 <= i < |trailer| ==> Shaped(trailer[i])
    ensures if Fits(trailer, f.flags.contentLength) then
              Goes(f, Head(last) + TrailerText(trailer), g, EndAtoms(trailer)) && g.state == NewMessage(g)
            else Ended(Fold(f, Head(last) + TrailerText(trailer)))
    ensures trailer == [] ==> g == f.(state := g.state, flags := f.flags.(trailing := true), contentLength := 0)
  {
    var f1 := HeadDone(f.(contentLength := 0));
    HeadGoes(f, last, 0);
    g := TrailerGoes(f1, trailer);
    if Fits(trailer, f.flags.contentLength) {
      var end := [Note(ChunkComplete), Note(MessageComplete)];
      GoesJoin(f, Head(last), f1, [Note(ChunkHeader)], TrailerText(trailer), g, TrailerAtoms(trailer) + end);
      assert [Note(ChunkHeader)] + (TrailerAtoms(trailer) + end) == EndAtoms(trailer);
    } else {
      GoesNoFurther(f, Head(last), f1, [Note(ChunkHeader)], TrailerText(trailer));
    }
  }

  function EndAtoms(trailer: seq<Trailer>): seq<Atom> {
    [Note(ChunkHeader)] + TrailerAtoms(trailer) + [Note(ChunkComplete), Note(MessageComplete)]
  }

  // ---------- the header size limit ----------

  /** A chunk head is counted byte by byte, and the count starts over behind it. */
  lemma HeadCounts(f: Fields, c: Chunk, length: nat)
    requires AtChunk(f) && HeadFor(c, length) && length <= ULLONG_MAX - 16 && |Head(c)| <= HTTP_MAX_HEADER_SIZE
    ensures Tally(f, 0, Head(c)) == Some(0)
  {
    var s := c.size + c.extension;
    var h := SizeEndGoes(f, c, length, s);
    ChunkHeadCounts(f, 0, s + [CR]);
    LastByteCounts(h, |s| + 1);
    TallyJoin(f, 0, s + [CR], [LF]);
    assert s + [CR] + [LF] == Head(c);
  }

  lemma SizeEndGoes(f: Fields, c: Chunk, length: nat, s: string) returns (h: Fields)
    requires AtChunk(f) && HeadFor(c, length) && length <= ULLONG_MAX - 16 && s == c.size + c.extension
    ensures Goes(f, s + [CR], h, []) && h.state.ChunkSizeAlmostDone?
  {
    var g := SizeGoes(f, c, length);
    h := Goto(g, ChunkSizeAlmostDone);
    SizeCrGoes(g);
    GoesJoin(f, s, g, [], [CR], h, []);
  }

  lemma SizeCrGoes(f: Fields)
    requires Legal(f) && (f.state.ChunkSize? || f.state.ChunkParameters?) && !f.upgrade
    ensures Goes(f, [CR], Goto(f, ChunkSizeAlmostDone), [])
  {
    assert Quiet(f, CR) == Goto(f, ChunkSizeAlmostDone);
    GoesOne(f, CR);
  }

  /** The byte behind which the count starts over. */
  lemma LastByteCounts(f: Fields, n: nat)
    requires Legal(f) && n < HTTP_MAX_HEADER_SIZE && (f.state.ChunkSizeAlmostDone? || f.state.ChunkDataDone?)
    ensures Tally(f, n, [LF]) == Some(0)
  {
    var g, m := TallyStep(f, n, [LF]);
    assert [LF][1..] == "";
  }

  lemma ChunkCounts(f: Fields, c: Chunk)
    requires AtChunk(f) && WellFormed(c) && |Head(c)| <= HTTP_MAX_HEADER_SIZE
    ensures Tally(f, 0, Text(c)) == Some(0)
  {
    var f1 := HeadDone(f.(contentLength := |c.data|));
    HeadGoes(f, c, |c.data|);
    HeadCounts(f, c, |c.data|);
    DataCounts(f1, c.data);
    TallyJoin(f, 0, Head(c), c.data + CRLF);
    assert Head(c) + (c.data + CRLF) == Text(c);
  }

  lemma DataCounts(f: Fields, s: string)
    requires Legal(f) && f.state.ChunkData? && !f.upgrade && |s| == f.contentLength
    ensures Tally(f, 0, s + CRLF) == Some(0)
  {
    ChunkFold(f, s);
    DataTally(f, s);
    DataEndCounts(f.(contentLength := 0, state := ChunkDataAlmostDone));
    TallyJoin(f, 0, s, CRLF);
  }

  lemma {:induction false} DataTally(f: Fields, s: string)
    requires Legal(f) && f.state.ChunkData? && |s| <= f.contentLength
    ensures Tally(f, 0, s) == Some(0)
    decreases |s|
  {
    if s != "" {
      var g, m := TallyStep(f, 0, s);
      if |s| > 1 {
        DataTally(g, s[1..]);
      } else {
        assert s[1..] == "";
      }
    }
  }

  lemma DataEndCounts(f: Fields)
    requires Legal(f) && f.state.ChunkDataAlmostDone?
    ensures Tally(f, 0, CRLF) == Some(0)
  {
    var g, m := TallyStep(f, 0, CRLF);
    LastByteCounts(g, 0);
    assert CRLF[1..] == [LF];
  }

  lemma {:induction false} ChunksCount(f: Fields, chunks: seq<Chunk>)
    requires AtChunk(f) && forall i :: 0 <= i < |chunks| ==> WellFormed(chunks[i]) && |Head(chunks[i])| <= HTTP_MAX_HEADER_SIZE
    ensures Tally(f, 0, Texts(chunks)) == Some(0)
    decreases |chunks|
  {
    if chunks != [] {
      var g := f.(contentLength := 0);
      ChunkGoes(f, chunks[0]);
      ChunkCounts(f, chunks[0]);
      ChunksCount(g, chunks[1..]);
      TallyJoin(f, 0, Text(chunks[0]), Texts(chunks[1..]));
    }
  }

  /** Each chunk head fits into the limit, and the trailer fits in with every byte counted twice. */
  predicate HeadsFit(chunks: seq<Chunk>, last: Chunk, trailer: seq<Trailer>) {
    && |Head(last)| <= HTTP_MAX_HEADER_SIZE && 2 * |TrailerText(trailer)| <= HTTP_MAX_HEADER_SIZE
    && forall i :: 0 <= i < |chunks| ==> |Head(chunks[i])| <= HTTP_MAX_HEADER_SIZE
  }

  lemma BodySplits(chunks: seq<Chunk>, last: Chunk, trailer: seq<Trailer>, end: string)
    requires end == Head(last) + TrailerText(trailer)
    ensures BodyText(chunks, last, trailer) == Texts(chunks) + end
  {
  }

  lemma CountsJoin(f: Fields, n: nat, a: string, g: Fields, b: string)
    requires Legal(f) && Tally(f, n, a) == Some(n) && Fold(f, a).f == g && Legal(g) && Tally(g, n, b).Some?
    ensures Tally(f, n, a + b).Some?
  {
    TallyJoin(f, n, a, b);
  }

  lemma LastIsAffordable(f: Fields, last: Chunk, trailer: seq<Trailer>)
    requires AtChunk(f) && HeadFor(last, 0) && |Head(last)| <= HTTP_MAX_HEADER_SIZE && 2 * |TrailerText(trailer)| <= HTTP_MAX_HEADER_SIZE
    requires (forall i :: 0 <= i < |trailer| ==> Shaped(trailer[i])) && Fits(trailer, f.flags.contentLength)
    ensures Tally(f, 0, Head(last) + TrailerText(trailer)).Some?
  {
    var g := HeadDone(f.(contentLength := 0));
    HeadGoes(f, last, 0);
    HeadCounts(f, last, 0);
    var h := TrailerGoes(g, trailer);
    ShortFits(g, 0, TrailerText(trailer));
    CountsJoin(f, 0, Head(last), g, TrailerText(trailer));
  }

  /** Such a body is never stopped by the limit. */
  lemma BodyIsAffordable(f: Fields, chunks: seq<Chunk>, last: Chunk, trailer: seq<Trailer>)
    requires AtChunk(f) && HeadFor(last, 0) && HeadsFit(chunks, last, trailer)
    requires forall i :: 0 <= i < |chunks| ==> WellFormed(chunks[i])
    requires (forall i :: 0 <= i < |trailer| ==> Shaped(trailer[i])) && Fits(trailer, f.flags.contentLength)
    ensures Tally(f, 0, BodyText(chunks, last, trailer)).Some?
  {
    var end, g := Head(last) + TrailerText(trailer), if chunks == [] then f else f.(contentLength := 0);
    ChunksGo(f, chunks);
    ChunksCount(f, chunks);
    LastIsAffordable(g, last, trailer);
    BodySplits(chunks, last, trailer, end);
    CountsJoin(f, 0, Texts(chunks), g, end);
  }

  // ---------- what the callbacks see ----------

  /** The bytes handed to the callback for a kind of data. */
  function DataOf(kind: DataKind, atoms: seq<Atom>): string {
    if atoms == [] then ""
    else
      var last := atoms[|atoms| - 1];
      DataOf(kind, atoms[..|atoms| - 1]) + if last.Byte? && last.kind == kind then [last.ch] else ""
  }

  /** How often on_message_complete was called. */
  function Completions(atoms: seq<Atom>): nat {
    if atoms == [] then 0
    else Completions(atoms[..|atoms| - 1]) + if atoms[|atoms| - 1] == Note(MessageComplete) then 1 else 0
  }

  lemma {:induction false} DataJoin(kind: DataKind, a: seq<Atom>, b: seq<Atom>)
    ensures DataOf(kind, a + b) == DataOf(kind, a) + DataOf(kind, b) && Completions(a + b) == Completions(a) + Completions(b)
    decreases |b|
  {
    if b == [] {
      assert a + b == a;
    } else {
      var front := b[..|b| - 1];
      assert (a + b)[..|a + b| - 1] == a + front;
      DataJoin(kind, a, front);
    }
  }

  lemma {:induction false} DataOfBytes(kind: DataKind, k: DataKind, s: string)
    ensures DataOf(kind, Bytes(k, s)) == (if k == kind then s else "") && Completions(Bytes(k, s)) == 0
    decreases |s|
  {
    if s != "" {
      var b := Bytes(k, s);
      assert b[..|b| - 1] == Bytes(k, s[..|s| - 1]);
      DataOfBytes(kind, k, s[..|s| - 1]);
      assert s == s[..|s| - 1] + [s[|s| - 1]];
    }
  }

  lemma OneNote(kind: DataKind, n: Notice)
    ensures DataOf(kind, [Note(n)]) == "" && Completions([Note(n)]) == if n.MessageComplete? then 1 else 0
  {
    assert [Note(n)][..0] == [];
  }

  lemma ChunkDelivers(kind: DataKind, c: Chunk)
    ensures DataOf(kind, ChunkAtoms(c)) == (if kind.BODY? then c.data else "") && Completions(ChunkAtoms(c)) == 0
  {
    DataOfBytes(kind, BODY, c.data);
    OneNote(kind, ChunkHeader);
    OneNote(kind, ChunkComplete);
    DataJoin(kind, [Note(ChunkHeader)], Bytes(BODY, c.data));
    DataJoin(kind, [Note(ChunkHeader)] + Bytes(BODY, c.data), [Note(ChunkComplete)]);
  }

  lemma {:induction false} ChunksDeliver(kind: DataKind, chunks: seq<Chunk>)
    ensures DataOf(kind, AllAtoms(chunks)) == (if kind.BODY? then Payload(chunks) else "") && Completions(AllAtoms(chunks)) == 0
  {
    if chunks != [] {
      ChunkDelivers(kind, chunks[0]);
      ChunksDeliver(kind, chunks[1..]);
      DataJoin(kind, ChunkAtoms(chunks[0]), AllAtoms(chunks[1..]));
    }
  }

  /** The names of the trailer, and its values without the blanks in front of them. */
  function Names(trailer: seq<Trailer>): string {
    if trailer == [] then "" else trailer[0].name + Names(trailer[1..])
  }

  function Values(trailer: seq<Trailer>): string {
    if trailer == [] then "" else ValueOf(trailer[0]) + Values(trailer[1..])
  }

  function TrailerData(kind: DataKind, trailer: seq<Trailer>): string {
    if kind.FIELD? then Names(trailer) else if kind.VALUE? then Values(trailer) else ""
  }

  lemma LineDelivers(kind: DataKind, t: Trailer)
    ensures DataOf(kind, LineAtoms(t)) == (if kind.FIELD? then t.name else if kind.VALUE? then ValueOf(t) else "")
    ensures Completions(LineAtoms(t)) == 0
  {
    DataOfBytes(kind, FIELD, t.name);
    DataOfBytes(kind, VALUE, ValueOf(t));
    DataJoin(kind, Bytes(FIELD, t.name), Bytes(VALUE, ValueOf(t)));
  }

  lemma {:induction false} TrailerDelivers(kind: DataKind, trailer: seq<Trailer>)
    ensures DataOf(kind, TrailerAtoms(trailer)) == TrailerData(kind, trailer) && Completions(TrailerAtoms(trailer)) == 0
  {
    if trailer != [] {
      LineDelivers(kind, trailer[0]);
      TrailerDelivers(kind, trailer[1..]);
      DataJoin(kind, LineAtoms(trailer[0]), TrailerAtoms(trailer[1..]));
    }
  }

  lemma EndDelivers(kind: DataKind, trailer: seq<Trailer>)
    ensures DataOf(kind, EndAtoms(trailer)) == TrailerData(kind, trailer) && Completions(EndAtoms(trailer)) == 1
  {
    var two := [Note(ChunkComplete), Note(MessageComplete)];
    OneNote(kind, ChunkHeader);
    OneNote(kind, ChunkComplete);
    OneNote(kind, MessageComplete);
    TrailerDelivers(kind, trailer);
    DataJoin(kind, [Note(ChunkComplete)], [Note(MessageComplete)]);
    assert [Note(ChunkComplete)] + [Note(MessageComplete)] == two;
    DataJoin(kind, [Note(ChunkHeader)], TrailerAtoms(trailer));
    DataJoin(kind, [Note(ChunkHeader)] + TrailerAtoms(trailer), two);
  }

  /** What is handed on of a whole body. */
  function Delivered(kind: DataKind, chunks: seq<Chunk>, trailer: seq<Trailer>): string {
    if kind.BODY? then Payload(chunks) else TrailerData(kind, trailer)
  }

  function BodyAtoms(chunks: seq<Chunk>, trailer: seq<Trailer>): seq<Atom> {
    AllAtoms(chunks) + EndAtoms(trailer)
  }

  /** On_body gets the payload, the header callbacks get the trailer, and the message is complete once, at the end. */
  lemma BodyDelivers(kind: DataKind, before: seq<Atom>, chunks: seq<Chunk>, trailer: seq<Trailer>)
    ensures var atoms := BodyAtoms(chunks, trailer);
      && DataOf(kind, before + atoms) == DataOf(kind, before) + Delivered(kind, chunks, trailer)
      && Completions(before + atoms) == Completions(before) + 1
      && atoms != [] && atoms[|atoms| - 1] == Note(MessageComplete)
  {
    ChunksDeliver(kind, chunks);
    EndDelivers(kind, trailer);
    DataJoin(kind, AllAtoms(chunks), EndAtoms(trailer));
    DataJoin(kind, before, BodyAtoms(chunks, trailer));
  }

  /** A whole chunked body goes through, unless its trailer is refused. */
  lemma BodyGoes(f: Fields, chunks: seq<Chunk>, last: Chunk, trailer: seq<Trailer>) returns (g: Fields)
    requires AtChunk(f) && HeadFor(last, 0) && forall i :: 0 <= i < |chunks| ==> WellFormed(chunks[i])
    requires forall i :: 0 <= i < |trailer| ==> Shaped(trailer[i])
    ensures if Fits(trailer, f.flags.contentLength) then
              Goes(f, BodyText(chunks, last, trailer), g, BodyAtoms(chunks, trailer)) && g.state == NewMessage(g)
            else Ended(Fold(f, BodyText(chunks, last, trailer)))
    ensures trailer == [] ==> g == f.(state := g.state, flags := f.flags.(trailing := true), contentLength := 0)
  {
    var f1 := if chunks == [] then f else f.(contentLength := 0);
    ChunksGo(f, chunks);
    g := LastGoes(f1, last, trailer);
    if Fits(trailer, f.flags.contentLength) {
      GoesJoin(f, Texts(chunks), f1, AllAtoms(chunks), Head(last) + TrailerText(trailer), g, EndAtoms(trailer));
    } else {
      GoesNoFurther(f, Texts(chunks), f1, AllAtoms(chunks), Head(last) + TrailerText(trailer));
    }
    assert Texts(chunks) + (Head(last) + TrailerText(trailer)) == BodyText(chunks, last, trailer);
  }

  /** However a chunked body with its trailer is cut into calls: if its heads fit into the header size limit, and the trailer
      gives no length that is refused, on_body gets the payload, the header callbacks get the trailer, and on_message_complete is
      called once, as the last callback. Otherwise nothing but that limit or such a length stops the parser. */
  method DeliverChunked(parser: Parser, pieces: seq<string>, ghost chunks: seq<Chunk>, ghost last: Chunk, ghost trailer: seq<Trailer>)
    returns (ok: bool)
    requires parser.Valid() && AtChunk(parser.f) && HeadFor(last, 0) && forall i :: 0 <= i < |chunks| ==> WellFormed(chunks[i])
    requires forall i :: 0 <= i < |trailer| ==> Shaped(trailer[i])
    requires Concat(pieces) == BodyText(chunks, last, trailer) && forall i :: 0 <= i < |pieces| ==> pieces[i] != ""
    modifies parser
    ensures parser.Valid()
    ensures HeadsFit(chunks, last, trailer) ==> (ok <==> Fits(trailer, old(parser.f).flags.contentLength))
    ensures ok ==> Fits(trailer, old(parser.f).flags.contentLength)
    ensures !ok ==> parser.TooLong() || !Fits(trailer, old(parser.f).flags.contentLength)
    ensures var told, before := Atoms(parser.said), old(Atoms(parser.said));
      ok ==>
        && (forall kind :: DataOf(kind, told) == DataOf(kind, before) + Delivered(kind, chunks, trailer))
        && Completions(told) == Completions(before) + 1
        && told != [] && told[|told| - 1] == Note(MessageComplete)
        && parser.f.state == NewMessage(parser.f)
        && (trailer == [] ==> parser.f.flags == old(parser.f).flags.(trailing := true) && parser.f.contentLength == 0)
  {
    ghost var g := BodyGoes(parser.f, chunks, last, trailer);
    ghost var before := Atoms(parser.said);
    forall kind ensures DataOf(kind, before + BodyAtoms(chunks, trailer)) == DataOf(kind, before) + Delivered(kind, chunks, trailer) {
      BodyDelivers(kind, before, chunks, trailer);
    }
    BodyDelivers(BODY, before, chunks, trailer);
    if HeadsFit(chunks, last, trailer) && Fits(trailer, parser.f.flags.contentLength) {
      BodyIsAffordable(parser.f, chunks, last, trailer);
    }
    ok := Feed(parser, pieces);
  }
}
