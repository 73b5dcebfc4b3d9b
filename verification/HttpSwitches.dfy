/** Messages behind which another protocol begins: CONNECT, and upgrades that both sides agree on. */
module HttpSwitches {
  import opened HttpStates
  import opened HttpReference
  import opened HttpRuns
  import opened HttpParser
  import opened HttpHeaders
  import opened HttpHeads
  import opened HttpStartLines
  import opened HttpMessages

  /** Such a message: CONNECT has no body whatever its header says, others have one only if a length says so. Chunks are another matter. */
  predicate SwitchFramed(m: Message) {
    && WellStarted(m.start) && AllWellFormed(m.headers) && AllTaken(NOTHING, m.headers)
    && var fr := Read(NOTHING, m.headers);
       && Switches(m.start, fr)
       && match ExtentOf(m.start, fr)
          case Refused => false
          case InChunks => Tunnels(m.start) && m.body.Empty?
          case Sized(n) => if Tunnels(m.start) then m.body.Empty? else m.body.Data? && |m.body.data| == n
          case _ => m.body.Empty?
  }

  predicate Tunnels(s: Start) {
    s.RequestLine? && s.verb.CONNECT?
  }

  lemma SwitchTurn(h: Fields, m: Message) returns (t: Turn)
    requires SwitchFramed(m) && Legal(h) && h.state.HeadersAlmostDone? && Ready(h, m.start, Read(NOTHING, m.headers))
    ensures t == HeadersAlmostDoneTurn(h, LF) && t.f.errno.OK? && t.f.upgrade
    ensures if m.body.Empty? then t.stop && t.atoms == [Note(HeadersComplete), Note(MessageComplete)]
            else !t.stop && t.atoms == [Note(HeadersComplete)] && t.f.state.BodyIdentity? && t.f.contentLength == |m.body.data|
  {
    t := HeadersAlmostDoneTurn(h, LF);
    assert [Note(HeadersComplete)] + [Note(MessageComplete)] == [Note(HeadersComplete), Note(MessageComplete)];
    assert [Note(HeadersComplete)] + [] == [Note(HeadersComplete)];
  }

  /** The head, up to the line feed that ends it. */
  lemma SwitchHead(f: Fields, m: Message) returns (h: Fields)
    requires AtStart(f) && OfKind(f, m.start) && SwitchFramed(m)
    ensures h.state.HeadersAlmostDone? && Ready(h, m.start, Read(NOTHING, m.headers))
    ensures Goes(f, StartText(m.start) + HeadersText(m.headers) + [CR], h, StartAtoms(m.start) + HeadersAtoms(m.headers))
  {
    var fr, atoms := Read(NOTHING, m.headers), StartAtoms(m.start) + HeadersAtoms(m.headers);
    LengthsTaken(NOTHING, m.headers);
    var g := LinesGo(f, m.start, m.headers);
    h := Goto(Settled(g), HeadersAlmostDone);
    EmptyLineGoes(g);
    SettledReady(g, h, m.start, fr);
    GoesJoin(f, StartText(m.start) + HeadersText(m.headers), g, atoms, [CR], h, []);
    assert atoms + [] == atoms;
  }

  lemma SwitchBody(h: Fields, m: Message)
    requires SwitchFramed(m) && Legal(h) && h.state.HeadersAlmostDone? && Ready(h, m.start, Read(NOTHING, m.headers))
    ensures var t := Fold(h, [LF] + TextOf(m.body));
      t.stop && t.f.errno.OK? && t.f.upgrade && t.atoms == [Note(HeadersComplete)] + TellBody(m.body) + [Note(MessageComplete)]
  {
    var t := SwitchTurn(h, m);
    FoldOne(h, LF);
    FoldJoin(h, [LF], TextOf(m.body));
    if m.body.Empty? {
      assert [Note(HeadersComplete)] + [] + [Note(MessageComplete)] == [Note(HeadersComplete), Note(MessageComplete)];
    } else {
      IdentityFold(t.f, m.body.data);
      Told(t.atoms, TellBody(m.body));
    }
  }

  /** The message is complete behind its header, or behind its body; then the parser stops and leaves the rest to the other
      protocol, whatever it is. */
  lemma SwitchGoes(f: Fields, m: Message, rest: string) returns (g: Fields)
    requires AtStart(f) && OfKind(f, m.start) && SwitchFramed(m)
    ensures Fold(f, MessageText(m) + rest) == Turn(g, MessageAtoms(m), true) && g.errno.OK? && g.upgrade
  {
    var h := SwitchHead(f, m);
    var front, back := StartText(m.start) + HeadersText(m.headers) + [CR], [LF] + TextOf(m.body);
    SwitchBody(h, m);
    FoldJoin(f, front, back);
    TextSplits(StartText(m.start), HeadersText(m.headers), TextOf(m.body));
    FoldJoin(f, MessageText(m), rest);
    g := Fold(f, MessageText(m)).f;
    AtomsJoin(StartAtoms(m.start) + HeadersAtoms(m.headers), TellBody(m.body));
  }

  lemma TextSplits(a: string, b: string, body: string)
    ensures a + b + [CR] + ([LF] + body) == a + (b + CRLF) + body
  {
    assert [CR] + [LF] == CRLF;
  }

  lemma AtomsJoin(front: seq<Atom>, body: seq<Atom>)
    ensures front + ([Note(HeadersComplete)] + body + [Note(MessageComplete)]) == front + [Note(HeadersComplete)] + body + [Note(MessageComplete)]
  {
  }
}
