/**
 Whole messages: where a body ends (section 4.4 of RFC 2616), and whether the connection goes on behind it (section 8.1). What
 a message means is read off its first line and its header lines, not off the fields of the parser.
 */
module HttpMessages {
  import opened CStrings
  import opened HttpStates
  import opened HttpReference
  import opened HttpRuns
  import opened HttpParser
  import opened HttpHeaders
  import opened HttpHeads
  import opened HttpTargets
  import opened HttpStartLines
  import opened HttpChunked

  // ---------- messages ----------

  datatype Body = Empty | Data(data: string) | Chunked(chunks: seq<Chunk>, last: Chunk)

  datatype Message = Message(start: Start, headers: seq<Header>, body: Body)

  function TextOf(b: Body): string {
    match b
    case Empty => ""
    case Data(data) => data
    case Chunked(chunks, last) => BodyText(chunks, last, [])
  }

  /** Everything in front of the body. */
  function Head(start: Start, headers: seq<Header>): string {
    StartText(start) + (HeadersText(headers) + CRLF)
  }

  function MessageText(m: Message): string {
    Head(m.start, m.headers) + TextOf(m.body)
  }

  // ---------- the framing ----------

  /** Where the body ends. */
  datatype Extent = Nothing | Sized(n: nat) | InChunks | ToTheEnd | Refused

  /** A response that never has a body: 1xx, 204 and 304. */
  predicate Bodiless(s: Start) {
    s.StatusLine? && (s.hundreds == '1' || (s.hundreds == '2' && s.tens == '0' && s.ones == '4') || (s.hundreds == '3' && s.tens == '0' && s.ones == '4'))
  }

  /** Where the body ends, as the parser has it. */
  function ExtentOf(s: Start, fr: Framing): Extent {
    if fr.chunked && fr.length.Some? then Refused
    else if fr.chunked then InChunks
    else if fr.length == Some(0) then Nothing
    else if fr.length.Some? then Sized(fr.length.value)
    else if s.RequestLine? || Bodiless(s) then Nothing
    else ToTheEnd
  }

  /** Where it ends by section 4.4 of RFC 2616: the five rules in their order, of which the fourth concerns multipart bodies. A
      request must say how long its body is, or has none. */
  function StandardExtent(s: Start, fr: Framing): Extent {
    if Bodiless(s) then Nothing
    else if fr.chunked then InChunks
    else if fr.length.Some? then if fr.length.value == 0 then Nothing else Sized(fr.length.value)
    else if s.RequestLine? then Nothing
    else ToTheEnd
  }

  /** The parser frames a message as the standard does, unless a response that never has a body announces one, or a length and
      the chunked coding come together: that is refused, where the standard lets the coding win. */
  lemma ExtentIsStandard(s: Start, fr: Framing)
    ensures ExtentOf(s, fr) == StandardExtent(s, fr) <==>
      !(Bodiless(s) && (fr.chunked || (fr.length.Some? && fr.length.value > 0))) && !(fr.chunked && fr.length.Some?)
  {
  }

  /** The connection goes on behind a message: HTTP/1.1 unless it is to be closed, and HTTP/1.0 if it is to be kept; and never
      behind a body that the end of the connection ends. */
  predicate Persists(s: Start, fr: Framing) {
    && (if s.major > '0' && s.minor > '0' then !fr.close else fr.keepAlive)
    && !ExtentOf(s, fr).ToTheEnd?
  }

  predicate BodyFits(e: Extent, b: Body) {
    match e
    case Nothing => b.Empty?
    case Sized(n) => b.Data? && |b.data| == n
    case InChunks => b.Chunked? && HeadFor(b.last, 0) && forall i :: 0 <= i < |b.chunks| ==> HttpChunked.WellFormed(b.chunks[i])
    case ToTheEnd => b.Data?
    case Refused => false
  }

  /** Behind the header comes another protocol: a tunnel, or one that both sides agree on. */
  predicate Switches(s: Start, fr: Framing) {
    (s.RequestLine? && s.verb.CONNECT?) || (fr.switch && fr.agreed)
  }

  /** The lines are header lines, no length is refused, and no other protocol comes behind them. */
  predicate GoodHead(s: Start, headers: seq<Header>) {
    WellStarted(s) && AllWellFormed(headers) && AllTaken(NOTHING, headers) && !Switches(s, Read(NOTHING, headers))
  }

  predicate Framed(m: Message) {
    GoodHead(m.start, m.headers) && BodyFits(ExtentOf(m.start, Read(NOTHING, m.headers)), m.body)
  }

  // ---------- what the callbacks are told ----------

  function HeadAtoms(s: Start, headers: seq<Header>): seq<Atom> {
    StartAtoms(s) + HeadersAtoms(headers) + [Note(HeadersComplete)]
  }

  function TellBody(b: Body): seq<Atom> {
    match b
    case Empty => []
    case Data(data) => Bytes(BODY, data)
    case Chunked(chunks, _) => AllAtoms(chunks) + [Note(ChunkHeader), Note(ChunkComplete)]
  }

  function MessageAtoms(m: Message): seq<Atom> {
    HeadAtoms(m.start, m.headers) + TellBody(m.body) + [Note(MessageComplete)]
  }

  // ---------- heads ----------

  /** The kind, the version and the code that the parser holds are those of the first line. */
  predicate Knows(f: Fields, s: Start) {
    match s
    case RequestLine(verb, _, major, minor) =>
      f.kind.REQUEST? && f.verb == verb && f.major == Value(major) && f.minor == Value(minor)
    case StatusLine(major, minor, _, _, _, _) =>
      f.kind.RESPONSE? && !f.verb.CONNECT? && f.major == Value(major) && f.minor == Value(minor) && f.statusCode == Code(s)
  }

  /** Behind the header lines, with all they say. */
  predicate HeadRead(f: Fields, s: Start, fr: Framing) {
    AtHeader(f, fr) && Knows(f, s)
  }

  predicate OfKind(f: Fields, s: Start) {
    s.RequestLine? <==> f.kind.REQUEST?
  }

  lemma StartGoes(f: Fields, s: Start) returns (g: Fields)
    requires AtStart(f) && OfKind(f, s) && WellStarted(s)
    ensures Goes(f, StartText(s), g, StartAtoms(s)) && HeadRead(g, s, NOTHING)
  {
    if s.RequestLine? {
      g := RequestGoes(f, s);
    } else {
      g := ResponseGoes(f, s);
    }
  }

  lemma LinesGo(f: Fields, s: Start, headers: seq<Header>) returns (g: Fields)
    requires AtStart(f) && OfKind(f, s) && WellStarted(s) && AllWellFormed(headers)
    ensures if AllTaken(NOTHING, headers) then
              && Goes(f, StartText(s) + HeadersText(headers), g, StartAtoms(s) + HeadersAtoms(headers))
              && HeadRead(g, s, Read(NOTHING, headers))
            else Ended(Fold(f, StartText(s) + HeadersText(headers)))
  {
    var h := StartGoes(f, s);
    g := HeadersGo(h, NOTHING, headers);
    if AllTaken(NOTHING, headers) {
      GoesJoin(f, StartText(s), h, StartAtoms(s), HeadersText(headers), g, HeadersAtoms(headers));
    } else {
      GoesNoFurther(f, StartText(s), h, StartAtoms(s), HeadersText(headers));
    }
  }

  /** The fields when the empty line has come. */
  predicate Ready(f: Fields, s: Start, fr: Framing) {
    && f.errno.OK? && !f.upgrade && f.index <= 17 && f.flags == FlagsOf(fr) && Knows(f, s)
    && (fr.length.Some? ==> fr.length.value < ULLONG_MAX)
    && f.contentLength == if fr.length.Some? then fr.length.value else ULLONG_MAX
  }

  /** A message that is over. */
  predicate Over(f: Fields, s: Start, persists: bool) {
    if persists then AtStart(f) && OfKind(f, s) else Legal(f) && f.state.Dead? && !f.upgrade
  }

  lemma CodeIs(s: Start)
    requires s.StatusLine? && WellStarted(s)
    ensures Code(s) / 100 == Value(s.hundreds)
    ensures Bodiless(s) <==> Code(s) / 100 == 1 || Code(s) == 204 || Code(s) == 304
  {
  }

  /** Whether the parser waits for the end of the connection, and whether it keeps it; the length may have been counted down. */
  lemma NewMessageIs(f: Fields, s: Start, fr: Framing)
    requires Knows(f, s) && WellStarted(s) && f.flags.(trailing := false) == FlagsOf(fr)
    requires f.contentLength == ULLONG_MAX <==> !fr.chunked && fr.length == None
    ensures NeedsEof(f) <==> ExtentOf(s, fr).ToTheEnd?
    ensures NewMessage(f) == if Persists(s, fr) then StartState(f) else Dead
  {
    if s.StatusLine? {
      CodeIs(s);
    }
  }

  /** What the parser does behind the empty line. */
  predicate BodyReady(g: Fields, s: Start, fr: Framing, atoms: seq<Atom>) {
    match ExtentOf(s, fr)
    case Nothing => Over(g, s, Persists(s, fr)) && atoms == [Note(HeadersComplete), Note(MessageComplete)]
    case Sized(n) => Waits(g, s, fr) && g.state.BodyIdentity? && g.contentLength == n && atoms == [Note(HeadersComplete)]
    case InChunks => Waits(g, s, fr) && g.state.ChunkSizeStart? && atoms == [Note(HeadersComplete)]
    case ToTheEnd => Waits(g, s, fr) && g.state.BodyIdentityEof? && atoms == [Note(HeadersComplete)]
    case Refused => false
  }

  /** In front of a body. */
  predicate Waits(f: Fields, s: Start, fr: Framing) {
    Legal(f) && !f.upgrade && Knows(f, s) && f.flags == FlagsOf(fr)
  }

  /** s_headers_almost_done and s_headers_done. */
  lemma BodyTurnIs(h: Fields, s: Start, fr: Framing) returns (t: Turn)
    requires Legal(h) && h.state.HeadersAlmostDone? && Ready(h, s, fr) && WellStarted(s) && !Switches(s, fr)
    ensures t == HeadersAlmostDoneTurn(h, LF)
    ensures if ExtentOf(s, fr).Refused? then !t.f.errno.OK? else t.f.errno.OK? && !t.stop && BodyReady(t.f, s, fr, t.atoms)
  {
    t := HeadersAlmostDoneTurn(h, LF);
    if !ExtentOf(s, fr).Refused? {
      assert h.(upgrade := Upgraded(h)) == h;
      BodyTurnParts(h, s, fr);
    }
  }

  lemma BodyTurnParts(h: Fields, s: Start, fr: Framing)
    requires Legal(h) && h.state.HeadersAlmostDone? && Ready(h, s, fr) && WellStarted(s) && !ExtentOf(s, fr).Refused?
    ensures var t := BodyTurn(h); t.f.errno.OK? && !t.stop && BodyReady(t.f, s, fr, [Note(HeadersComplete)] + t.atoms)
  {
    var t := BodyTurn(h);
    assert [Note(HeadersComplete)] + [Note(MessageComplete)] == [Note(HeadersComplete), Note(MessageComplete)];
    assert [Note(HeadersComplete)] + [] == [Note(HeadersComplete)];
    if !fr.chunked {
      NewMessageIs(h, s, fr);
    }
    if ExtentOf(s, fr).Nothing? {
      MessageOver(h, s, Persists(s, fr));
    }
  }

  lemma MessageOver(f: Fields, s: Start, persists: bool)
    requires f.errno.OK? && !f.upgrade && f.index <= 17 && f.contentLength <= ULLONG_MAX && Knows(f, s)
    requires NewMessage(f) == if persists then StartState(f) else Dead
    ensures Over(Goto(f, NewMessage(f)), s, persists)
  {
  }

  /** The empty line: the header is complete, and the body begins where the framing says. */
  lemma HeadEndGoes(f: Fields, s: Start, fr: Framing) returns (g: Fields, atoms: seq<Atom>)
    requires HeadRead(f, s, fr) && WellStarted(s) && !Switches(s, fr) && (fr.length.Some? ==> fr.length.value < ULLONG_MAX)
    ensures if ExtentOf(s, fr).Refused? then Ended(Fold(f, CRLF)) else Goes(f, CRLF, g, atoms) && BodyReady(g, s, fr, atoms)
  {
    var h := Goto(Settled(f), HeadersAlmostDone);
    EmptyLineGoes(f);
    SettledReady(f, h, s, fr);
    var t := BodyTurnIs(h, s, fr);
    g, atoms := t.f, t.atoms;
    assert [CR] + [LF] == CRLF;
    if ExtentOf(s, fr).Refused? {
      FoldOne(h, LF);
      GoesNoFurther(f, [CR], h, [], [LF]);
    } else {
      BodyReadyCalm(g, s, fr, atoms);
      GoesOne(h, LF);
      GoesJoin(f, [CR], h, [], [LF], g, atoms);
      assert [] + atoms == atoms;
    }
  }

  lemma BodyReadyCalm(g: Fields, s: Start, fr: Framing, atoms: seq<Atom>)
    requires BodyReady(g, s, fr, atoms)
    ensures !g.upgrade
  {
  }

  lemma SettledReady(f: Fields, h: Fields, s: Start, fr: Framing)
    requires HeadRead(f, s, fr) && h == Goto(Settled(f), HeadersAlmostDone) && (fr.length.Some? ==> fr.length.value < ULLONG_MAX)
    ensures Ready(h, s, fr) && Legal(h)
  {
    HttpReference.ConcludedKeeps(f);
  }

  /** A length that was taken is not too large. */
  lemma {:induction false} LengthsTaken(fr: Framing, headers: seq<Header>)
    requires AllWellFormed(headers) && AllTaken(fr, headers) && (fr.length.Some? ==> fr.length.value < ULLONG_MAX)
    ensures var r := Read(fr, headers); r.length.Some? ==> r.length.value < ULLONG_MAX
    decreases |headers|
  {
    if headers != [] {
      LengthsTaken(With(fr, headers[0]), headers[1..]);
    }
  }

  /** A head: the parser stands where the body begins, and knows where it ends; or it refuses the head. */
  lemma HeadGoes(f: Fields, s: Start, headers: seq<Header>) returns (g: Fields, atoms: seq<Atom>)
    requires AtStart(f) && OfKind(f, s) && GoodHead(s, headers)
    ensures var fr := Read(NOTHING, headers);
      if ExtentOf(s, fr).Refused? then Ended(Fold(f, Head(s, headers)))
      else Goes(f, Head(s, headers), g, StartAtoms(s) + HeadersAtoms(headers) + atoms) && BodyReady(g, s, fr, atoms)
  {
    var fr, front := Read(NOTHING, headers), StartText(s) + HeadersText(headers);
    LengthsTaken(NOTHING, headers);
    var h := LinesGo(f, s, headers);
    g, atoms := HeadEndGoes(h, s, fr);
    HeadSplits(StartText(s), HeadersText(headers));
    if ExtentOf(s, fr).Refused? {
      GoesNoFurther(f, front, h, StartAtoms(s) + HeadersAtoms(headers), CRLF);
    } else {
      GoesJoin(f, front, h, StartAtoms(s) + HeadersAtoms(headers), CRLF, g, atoms);
    }
  }

  lemma HeadSplits(a: string, b: string)
    ensures a + b + CRLF == a + (b + CRLF)
  {
  }

  // ---------- bodies ----------

  lemma {:induction false} SizedCalm(f: Fields, s: string)
    requires Legal(f) && f.state.BodyIdentity? && !f.upgrade && |s| <= f.contentLength
    ensures Calm(f, s)
    decreases |s|
  {
    if |s| > 1 {
      SizedCalm(f.(contentLength := f.contentLength - 1), s[1..]);
    } else if |s| == 1 {
      assert s[1..] == "" && !Next(f, s[0]).f.upgrade;
      if !Ended(Next(f, s[0])) {
        NextLegal(f, s[0]);
      }
    }
  }

  /** A body of a given length: exactly that many bytes, and the message is complete. */
  lemma SizedGoes(f: Fields, s: Start, fr: Framing, data: string) returns (g: Fields)
    requires Waits(f, s, fr) && WellStarted(s) && ExtentOf(s, fr).Sized? && f.state.BodyIdentity? && f.contentLength == |data|
    ensures Goes(f, data, g, Bytes(BODY, data) + [Note(MessageComplete)]) && Over(g, s, Persists(s, fr))
  {
    var h := f.(contentLength := 0);
    SizedCalm(f, data);
    IdentityFold(f, data);
    NewMessageIs(h, s, fr);
    MessageOver(h, s, Persists(s, fr));
    g := Goto(h, NewMessage(h));
  }

  lemma {:induction false} EndlessGoes(f: Fields, data: string)
    requires Legal(f) && f.state.BodyIdentityEof? && !f.upgrade
    ensures Goes(f, data, f, Bytes(BODY, data))
    decreases |data|
  {
    if data == "" {
      GoesNothing(f);
    } else {
      GoesOne(f, data[0]);
      EndlessGoes(f, data[1..]);
      GoesOn(f, data, f, [Byte(BODY, data[0])], f, Bytes(BODY, data[1..]));
      FirstByte(BODY, data);
    }
  }

  /** A chunked body without a trailer. */
  lemma ChunkedGoes(f: Fields, s: Start, fr: Framing, chunks: seq<Chunk>, last: Chunk) returns (g: Fields)
    requires Waits(f, s, fr) && WellStarted(s) && ExtentOf(s, fr).InChunks? && f.state.ChunkSizeStart?
    requires HeadFor(last, 0) && forall i :: 0 <= i < |chunks| ==> HttpChunked.WellFormed(chunks[i])
    ensures Goes(f, BodyText(chunks, last, []), g, TellBody(Chunked(chunks, last)) + [Note(MessageComplete)])
    ensures Over(g, s, Persists(s, fr))
  {
    g := BodyGoes(f, chunks, last, []);
    ChunkedKnows(f, g, s, fr);
    assert BodyAtoms(chunks, []) == TellBody(Chunked(chunks, last)) + [Note(MessageComplete)];
  }

  lemma ChunkedKnows(f: Fields, g: Fields, s: Start, fr: Framing)
    requires Waits(f, s, fr) && WellStarted(s) && ExtentOf(s, fr).InChunks? && Legal(g) && !g.upgrade && Knows(g, s)
    requires g.flags == f.flags.(trailing := true) && g.contentLength == 0 && g.state == NewMessage(g)
    ensures Over(g, s, Persists(s, fr))
  {
    NewMessageIs(g, s, fr);
  }

  // ---------- whole messages ----------

  function FramingOf(m: Message): Framing
    requires AllWellFormed(m.headers)
  {
    Read(NOTHING, m.headers)
  }

  predicate Persistent(m: Message)
    requires AllWellFormed(m.headers)
  {
    Persists(m.start, FramingOf(m))
  }

  predicate Endless(m: Message)
    requires AllWellFormed(m.headers)
  {
    ExtentOf(m.start, FramingOf(m)).ToTheEnd?
  }

  /** The body, from where its head left the parser. */
  lemma BodyPartGoes(f: Fields, m: Message, atoms: seq<Atom>) returns (g: Fields, more: seq<Atom>)
    requires Framed(m) && !Endless(m) && Legal(f) && !f.upgrade && BodyReady(f, m.start, FramingOf(m), atoms)
    ensures Goes(f, TextOf(m.body), g, more) && Over(g, m.start, Persistent(m))
    ensures atoms + more == [Note(HeadersComplete)] + TellBody(m.body) + [Note(MessageComplete)]
  {
    var fr := FramingOf(m);
    match m.body
    case Empty =>
      GoesNothing(f);
      g, more := f, [];
      assert [Note(HeadersComplete)] + [] + [Note(MessageComplete)] == [Note(HeadersComplete), Note(MessageComplete)];
    case Data(data) =>
      g := SizedGoes(f, m.start, fr, data);
      more := Bytes(BODY, data) + [Note(MessageComplete)];
      Told(atoms, TellBody(m.body));
    case Chunked(chunks, last) =>
      g := ChunkedGoes(f, m.start, fr, chunks, last);
      more := TellBody(m.body) + [Note(MessageComplete)];
      Told(atoms, TellBody(m.body));
  }

  lemma Told(atoms: seq<Atom>, body: seq<Atom>)
    ensures atoms + (body + [Note(MessageComplete)]) == atoms + body + [Note(MessageComplete)]
  {
  }

  /** A message goes through: its head, exactly its body, and one completion behind it; then the parser waits for the next message
      if the connection persists, and takes no more if not. */
  lemma MessageGoes(f: Fields, m: Message) returns (g: Fields)
    requires AtStart(f) && OfKind(f, m.start) && Framed(m) && !Endless(m)
    ensures Goes(f, MessageText(m), g, MessageAtoms(m)) && Over(g, m.start, Persistent(m))
  {
    var front := StartAtoms(m.start) + HeadersAtoms(m.headers);
    var h, atoms := HeadGoes(f, m.start, m.headers);
    BodyReadyCalm(h, m.start, FramingOf(m), atoms);
    var more;
    g, more := BodyPartGoes(h, m, atoms);
    GoesJoin(f, Head(m.start, m.headers), h, front + atoms, TextOf(m.body), g, more);
    AtomsSplit(front, atoms, more, TellBody(m.body));
  }

  lemma AtomsSplit(front: seq<Atom>, atoms: seq<Atom>, more: seq<Atom>, body: seq<Atom>)
    requires atoms + more == [Note(HeadersComplete)] + body + [Note(MessageComplete)]
    ensures front + atoms + more == front + [Note(HeadersComplete)] + body + [Note(MessageComplete)]
  {
    assert front + atoms + more == front + (atoms + more);
  }

  /** A response with neither a length nor the chunked coding takes everything that follows. */
  lemma EndlessMessageGoes(f: Fields, m: Message) returns (g: Fields)
    requires AtStart(f) && OfKind(f, m.start) && Framed(m) && Endless(m)
    ensures Goes(f, MessageText(m), g, HeadAtoms(m.start, m.headers) + TellBody(m.body)) && g.state.BodyIdentityEof?
  {
    var atoms;
    g, atoms := HeadGoes(f, m.start, m.headers);
    EndlessGoes(g, m.body.data);
    GoesJoin(f, Head(m.start, m.headers), g, HeadAtoms(m.start, m.headers), m.body.data, g, Bytes(BODY, m.body.data));
  }

  /** A head with a second length, with one that is too large, or with a length and the chunked coding is refused. */
  lemma HeadRefused(f: Fields, s: Start, headers: seq<Header>)
    requires AtStart(f) && OfKind(f, s) && WellStarted(s) && AllWellFormed(headers)
    requires !Switches(s, Read(NOTHING, headers))
    requires !AllTaken(NOTHING, headers) || ExtentOf(s, Read(NOTHING, headers)).Refused?
    ensures Ended(Fold(f, Head(s, headers)))
  {
    if AllTaken(NOTHING, headers) {
      var g, atoms := HeadGoes(f, s, headers);
    } else {
      var g := LinesGo(f, s, headers);
      FoldJoin(f, StartText(s) + HeadersText(headers), CRLF);
      HeadSplits(StartText(s), HeadersText(headers));
    }
  }

  // ---------- one behind the other ----------

  /** A closed connection takes no message. */
  lemma DeadRefuses(f: Fields, s: string)
    requires Legal(f) && f.state.Dead? && s != "" && s[0] != CR && s[0] != LF
    ensures Ended(Fold(f, s)) && Fold(f, s).f.errno == CLOSED_CONNECTION
  {
    assert Next(f, s[0]).f.errno == CLOSED_CONNECTION;
    FoldStep(f, s);
  }

  lemma FirstLetter(m: Message)
    requires WellStarted(m.start)
    ensures MessageText(m) != "" && MessageText(m)[0] != CR && MessageText(m)[0] != LF
  {
    if m.start.RequestLine? {
      MethodStrings(m.start.verb);
      MethodLetters(m.start.verb, 0);
    }
  }

  /** Another message is accepted behind a message exactly if the connection persists. */
  lemma AnotherIff(f: Fields, m: Message, next: Message)
    requires AtStart(f) && OfKind(f, m.start) && Framed(m) && !Endless(m) && OfKind(f, next.start) && Framed(next)
    ensures Ended(Fold(f, MessageText(m) + MessageText(next))) <==> !Persistent(m)
  {
    var g := MessageGoes(f, m);
    FoldJoin(f, MessageText(m), MessageText(next));
    if Persistent(m) {
      SameKind(f, g, m.start, next.start);
      var h := AnyMessageGoes(g, next);
    } else {
      FirstLetter(next);
      DeadRefuses(g, MessageText(next));
    }
  }

  lemma SameKind(f: Fields, g: Fields, s: Start, next: Start)
    requires OfKind(f, s) && OfKind(f, next) && OfKind(g, s)
    ensures OfKind(g, next)
  {
  }

  lemma AnyMessageGoes(f: Fields, m: Message) returns (g: Fields)
    requires AtStart(f) && OfKind(f, m.start) && Framed(m)
    ensures !Ended(Fold(f, MessageText(m)))
  {
    if Endless(m) {
      g := EndlessMessageGoes(f, m);
    } else {
      g := MessageGoes(f, m);
    }
  }

  predicate AllFramed(ms: seq<Message>, requests: bool) {
    forall i :: 0 <= i < |ms| ==> Framed(ms[i]) && !Endless(ms[i]) && (ms[i].start.RequestLine? <==> requests)
  }

  /** Every message but the last leaves the connection open. */
  predicate Pipelined(ms: seq<Message>)
    requires forall i :: 0 <= i < |ms| ==> AllWellFormed(ms[i].headers)
  {
    forall i :: 0 <= i < |ms| - 1 ==> Persistent(ms[i])
  }

  function AllText(ms: seq<Message>): string {
    if ms == [] then "" else MessageText(ms[0]) + AllText(ms[1..])
  }

  function AllTold(ms: seq<Message>): seq<Atom> {
    if ms == [] then [] else MessageAtoms(ms[0]) + AllTold(ms[1..])
  }

  /** Messages one behind the other are told one behind the other. */
  lemma {:induction false} MessagesGo(f: Fields, ms: seq<Message>) returns (g: Fields)
    requires AtStart(f) && AllFramed(ms, f.kind.REQUEST?) && Pipelined(ms)
    ensures Goes(f, AllText(ms), g, AllTold(ms))
    decreases |ms|
  {
    if ms == [] {
      GoesNothing(f);
      g := f;
    } else {
      var h := MessageGoes(f, ms[0]);
      if |ms| == 1 {
        GoesNothing(h);
        g := h;
        assert ms[1..] == [];
      } else {
        g := MessagesGo(h, ms[1..]);
      }
      GoesJoin(f, MessageText(ms[0]), h, MessageAtoms(ms[0]), AllText(ms[1..]), g, AllTold(ms[1..]));
    }
  }

  // ---------- what is handed on ----------

  function PayloadOf(b: Body): string {
    match b
    case Empty => ""
    case Data(data) => data
    case Chunked(chunks, _) => Payload(chunks)
  }

  function HeaderNames(hs: seq<Header>): string {
    if hs == [] then "" else hs[0].name + HeaderNames(hs[1..])
  }

  function HeaderValues(hs: seq<Header>): string {
    if hs == [] then "" else ValueText(hs[0]) + HeaderValues(hs[1..])
  }

  /** What the data callbacks get of a message. */
  function PartOf(kind: DataKind, m: Message): string {
    match kind
    case URL => if m.start.RequestLine? then TargetText(m.start.target) else ""
    case STATUS => if m.start.StatusLine? then m.start.reason else ""
    case FIELD => HeaderNames(m.headers)
    case VALUE => HeaderValues(m.headers)
    case BODY => PayloadOf(m.body)
  }

  lemma StartDelivers(kind: DataKind, m: Message)
    ensures DataOf(kind, StartAtoms(m.start)) == (if kind.URL? || kind.STATUS? then PartOf(kind, m) else "")
    ensures Completions(StartAtoms(m.start)) == 0
  {
    var s := m.start;
    OneNote(kind, MessageBegin);
    if s.RequestLine? {
      DataOfBytes(kind, URL, TargetText(s.target));
      DataJoin(kind, [Note(MessageBegin)], Bytes(URL, TargetText(s.target)));
    } else {
      DataOfBytes(kind, STATUS, s.reason);
      DataJoin(kind, [Note(MessageBegin)], Bytes(STATUS, s.reason));
    }
  }

  lemma HeaderDelivers(kind: DataKind, h: Header)
    ensures DataOf(kind, HeaderAtoms(h)) == (if kind.FIELD? then h.name else if kind.VALUE? then ValueText(h) else "")
    ensures Completions(HeaderAtoms(h)) == 0
  {
    DataOfBytes(kind, FIELD, h.name);
    DataOfBytes(kind, VALUE, ValueText(h));
    DataJoin(kind, Bytes(FIELD, h.name), Bytes(VALUE, ValueText(h)));
  }

  function HeaderData(kind: DataKind, hs: seq<Header>): string {
    if kind.FIELD? then HeaderNames(hs) else if kind.VALUE? then HeaderValues(hs) else ""
  }

  lemma {:induction false} HeadersDeliver(kind: DataKind, hs: seq<Header>)
    ensures DataOf(kind, HeadersAtoms(hs)) == HeaderData(kind, hs) && Completions(HeadersAtoms(hs)) == 0
    decreases |hs|
  {
    if hs != [] {
      HeaderDelivers(kind, hs[0]);
      HeadersDeliver(kind, hs[1..]);
      DataJoin(kind, HeaderAtoms(hs[0]), HeadersAtoms(hs[1..]));
    }
  }

  lemma BodyDelivered(kind: DataKind, b: Body)
    ensures DataOf(kind, TellBody(b)) == (if kind.BODY? then PayloadOf(b) else "") && Completions(TellBody(b)) == 0
  {
    match b
    case Empty =>
    case Data(data) => DataOfBytes(kind, BODY, data);
    case Chunked(chunks, _) =>
      ChunksDeliver(kind, chunks);
      OneNote(kind, ChunkHeader);
      OneNote(kind, ChunkComplete);
      DataJoin(kind, [Note(ChunkHeader)], [Note(ChunkComplete)]);
      assert [Note(ChunkHeader)] + [Note(ChunkComplete)] == [Note(ChunkHeader), Note(ChunkComplete)];
      DataJoin(kind, AllAtoms(chunks), [Note(ChunkHeader), Note(ChunkComplete)]);
  }

  lemma HeadDelivers(kind: DataKind, m: Message)
    ensures DataOf(kind, HeadAtoms(m.start, m.headers)) == (if kind.BODY? then "" else PartOf(kind, m))
    ensures Completions(HeadAtoms(m.start, m.headers)) == 0
  {
    StartDelivers(kind, m);
    HeadersDeliver(kind, m.headers);
    Noted(kind, StartAtoms(m.start), HeadersAtoms(m.headers), HeadersComplete);
    PartNamed(kind, m);
  }

  /** Everything but the body is in the first line or in the header lines. */
  lemma PartNamed(kind: DataKind, m: Message)
    ensures (if kind.URL? || kind.STATUS? then PartOf(kind, m) else "") + HeaderData(kind, m.headers) ==
            if kind.BODY? then "" else PartOf(kind, m)
  {
  }

  /** Every part of a message reaches its callback, and the message is complete once, at the end. */
  lemma MessageDelivers(kind: DataKind, m: Message)
    ensures DataOf(kind, MessageAtoms(m)) == PartOf(kind, m) && Completions(MessageAtoms(m)) == 1
    ensures var atoms := MessageAtoms(m); atoms != [] && atoms[|atoms| - 1] == Note(MessageComplete)
  {
    HeadDelivers(kind, m);
    BodyDelivered(kind, m.body);
    Noted(kind, HeadAtoms(m.start, m.headers), TellBody(m.body), MessageComplete);
  }

  lemma Noted(kind: DataKind, a: seq<Atom>, b: seq<Atom>, n: Notice)
    ensures DataOf(kind, a + b + [Note(n)]) == DataOf(kind, a) + DataOf(kind, b)
    ensures Completions(a + b + [Note(n)]) == Completions(a) + Completions(b) + if n.MessageComplete? then 1 else 0
  {
    OneNote(kind, n);
    DataJoin(kind, a, b);
    DataJoin(kind, a + b, [Note(n)]);
  }

  function PartsOf(kind: DataKind, ms: seq<Message>): string {
    if ms == [] then "" else PartOf(kind, ms[0]) + PartsOf(kind, ms[1..])
  }

  lemma {:induction false} MessagesDeliver(kind: DataKind, ms: seq<Message>)
    ensures DataOf(kind, AllTold(ms)) == PartsOf(kind, ms) && Completions(AllTold(ms)) == |ms|
    decreases |ms|
  {
    if ms != [] {
      MessageDelivers(kind, ms[0]);
      MessagesDeliver(kind, ms[1..]);
      DataJoin(kind, MessageAtoms(ms[0]), AllTold(ms[1..]));
    }
  }

  /** However messages that come one behind the other are cut into calls: nothing but the header size limit stops the parser, the
      callbacks get the parts of the messages in turn, and on_message_complete is called once for each. */
  method DeliverMessages(parser: Parser, pieces: seq<string>, ghost ms: seq<Message>) returns (ok: bool)
    requires parser.Valid() && AtStart(parser.f) && AllFramed(ms, parser.f.kind.REQUEST?) && Pipelined(ms)
    requires Concat(pieces) == AllText(ms) && forall i :: 0 <= i < |pieces| ==> pieces[i] != ""
    modifies parser
    ensures parser.Valid()
    ensures !ok ==> parser.TooLong()
    ensures old(parser.nread) + 2 * |AllText(ms)| <= 80 * 1024 ==> ok
    ensures var told, before := Atoms(parser.said), old(Atoms(parser.said));
      ok ==>
        && (forall kind :: DataOf(kind, told) == DataOf(kind, before) + PartsOf(kind, ms))
        && Completions(told) == Completions(before) + |ms|
  {
    ghost var g := MessagesGo(parser.f, ms);
    ghost var before := Atoms(parser.said);
    forall kind ensures DataOf(kind, before + AllTold(ms)) == DataOf(kind, before) + PartsOf(kind, ms) {
      MessagesDeliver(kind, ms);
      DataJoin(kind, before, AllTold(ms));
    }
    MessagesDeliver(BODY, ms);
    DataJoin(BODY, before, AllTold(ms));
    ok := Feed(parser, pieces);
  }

  /** A response without a length, cut into calls, and then the end of the connection: everything that came is its body. */
  method DeliverToTheEnd(parser: Parser, pieces: seq<string>, ghost m: Message) returns (ok: bool)
    requires parser.Valid() && AtStart(parser.f) && OfKind(parser.f, m.start) && Framed(m) && Endless(m)
    requires Concat(pieces) == MessageText(m) && forall i :: 0 <= i < |pieces| ==> pieces[i] != ""
    modifies parser
    ensures !ok ==> parser.TooLong()
    ensures old(parser.nread) + 2 * |MessageText(m)| <= 80 * 1024 ==> ok
    ensures ok ==> Atoms(parser.said) == old(Atoms(parser.said)) + MessageAtoms(m)
  {
    ghost var g := EndlessMessageGoes(parser.f, m);
    ghost var before := Atoms(parser.said);
    ok := Feed(parser, pieces);
    if ok {
      var parsed := parser.ExecuteEof();
      ToldAgain(before, HeadAtoms(m.start, m.headers) + TellBody(m.body));
    }
  }

  lemma ToldAgain(before: seq<Atom>, atoms: seq<Atom>)
    ensures before + atoms + [Note(MessageComplete)] == before + (atoms + [Note(MessageComplete)])
  {
  }

  // ---------- where the parser and the standard part ----------

  /** A 304 that announces five bytes: the standard ends it with its header, the parser takes what follows for a body. */
  lemma NotModifiedTakesBody(f: Fields, data: string) returns (m: Message, g: Fields)
    requires AtStart(f) && f.kind.RESPONSE? && |data| == 5
    ensures Bodiless(m.start) && AllWellFormed(m.headers) && StandardExtent(m.start, FramingOf(m)) == Nothing
    ensures m.body == Body.Data(data) && Framed(m) && Goes(f, MessageText(m), g, MessageAtoms(m))
  {
    var h := Length("Content-Length", " ", "5");
    var s := StatusLine('1', '1', '3', '0', '4', "Not Modified");
    m := Message(s, [h], Body.Data(data));
    LengthOfFive(h);
    assert [h][1..] == [] && Read(NOTHING, [h]) == With(NOTHING, h) && AllTaken(NOTHING, [h]);
    g := MessageGoes(f, m);
  }

  lemma LengthOfFive(h: Header)
    requires h == Length("Content-Length", " ", "5")
    ensures HttpHeads.WellFormed(h) && With(NOTHING, h) == NOTHING.(length := Some(5)) && Taken(NOTHING, h)
  {
    assert Lower("Content-Length") == "content-length";
    OneDigit("5");
  }

  /** "Connection: c,close": the cut option hides the one behind it, and the connection stays open. */
  lemma CutHidesClose(name: string, blanks: string)
    requires Lower(name) == "connection" && name != "" && NameChars(name) && Blanks(blanks)
    ensures var words := [Word("", "c", ""), Word("", "close", "")];
      && HttpHeads.WellFormed(Options(name, blanks, words))
      && "close" in Said(words) && "close" !in Heard(words) && !With(NOTHING, Options(name, blanks, words)).close
  {
    var words := [Word("", "c", ""), Word("", "close", "")];
    assert Lower("c") == "c" && Lower("close") == "close";
    assert "c" < "close" && Cut("c");
    assert words[1..] == [words[1]] && words[2..] == [] && [words[1]][1..] == [];
    assert Heard(words) == {"c"} + {};
    assert "c" != "close" by {
      assert |"c"| == 1;
    }
  }
}
