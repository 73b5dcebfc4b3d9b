/** Header lines: which names the parser recognises, and how a line begins and ends. */
module HttpHeaders {
  import opened CStrings
  import opened HttpStates
  import opened HttpReference
  import opened HttpRuns
  import opened HttpParser

  /** A token character of section 2.2 of RFC 2616: no control character, no separator. */
  predicate TokenChar(ch: char) {
    ' ' < ch < 127 as char
    && ch !in {'(', ')', '<', '>', '@', ',', ';', ':', '\\', '\"', '/', '[', ']', '?', '=', '{', '}'}
  }

  predicate NameChars(s: string) {
    forall i :: 0 <= i < |s| ==> TokenChar(s[i])
  }

  /** Anything but control characters, a tab excepted. */
  predicate TextChar(ch: char) {
    ch == '\t' || (' ' <= ch && ch != 127 as char)
  }

  predicate ValueChars(s: string) {
    forall i :: 0 <= i < |s| ==> TextChar(s[i])
  }

  predicate IsBlank(ch: char) {
    ch == ' ' || ch == '\t'
  }

  predicate Blanks(s: string) {
    forall i :: 0 <= i < |s| ==> IsBlank(s[i])
  }

  /** In front of a header line. */
  predicate AtLine(f: Fields) {
    Legal(f) && !f.upgrade && (f.state.HeaderFieldStart? || f.state.HeaderValueLws? || f.state.HeaderValueDiscardLws?)
  }

  /** The line before is finished first. */
  function Settled(f: Fields): Fields {
    if f.state.HeaderFieldStart? then f else Goto(Concluded(f), HeaderFieldStart)
  }

  // ---------- names ----------

  /** What a header name is to the parser, in small letters. */
  function Role(name: string): HeaderState {
    if name == "connection" || name == "proxy-connection" then Connection
    else if name == "content-length" then ContentLength
    else if name == "transfer-encoding" then TransferEncoding
    else if name == "upgrade" then Upgrade
    else General
  }

  /** What the parser goes by when the value begins. */
  function RoleOf(h: HeaderState): HeaderState {
    if h.Connection? || h.ContentLength? || h.TransferEncoding? || h.Upgrade? then h else General
  }

  predicate Begins(w: string, name: string) {
    |w| <= |name| && name[..|w|] == w
  }

  /** The header state while the first characters of a name are `w`. */
  function Track(w: string): HeaderState {
    if Begins(w, "connection") then
      if |w| == 1 then C else if |w| == 2 then CO else if |w| == 3 then CON else if |w| < 10 then MatchingConnection else Connection
    else if Begins(w, "content-length") then if |w| < 14 then MatchingContentLength else ContentLength
    else if Begins(w, "proxy-connection") then if |w| < 16 then MatchingProxyConnection else Connection
    else if Begins(w, "transfer-encoding") then if |w| < 17 then MatchingTransferEncoding else TransferEncoding
    else if Begins(w, "upgrade") then if |w| < 7 then MatchingUpgrade else Upgrade
    else General
  }

  predicate Follows(f: Fields, w: string) {
    f.state.HeaderField? && w != "" && f.headerState == Track(w) && (Comparing(Track(w)) ==> f.index == |w| - 1)
  }

  lemma BeginsStep(w: string, c: char, name: string)
    ensures Begins(w + [c], name) <==> Begins(w, name) && |w| < |name| && c == name[|w|]
  {
    var v := w + [c];
    assert v[..|w|] == w && v[|w|] == c;
    if |v| <= |name| {
      assert name[..|v|] == name[..|w|] + [name[|w|]];
    }
  }

  /** Only "connection" and "content-length" begin alike. */
  lemma BeginsApart(w: string)
    requires w != ""
    ensures Begins(w, "connection") || Begins(w, "content-length") ==>
        w[0] == 'c' && !Begins(w, "proxy-connection") && !Begins(w, "transfer-encoding") && !Begins(w, "upgrade")
    ensures Begins(w, "proxy-connection") ==> !Begins(w, "transfer-encoding") && !Begins(w, "upgrade")
    ensures Begins(w, "transfer-encoding") ==> !Begins(w, "upgrade")
    ensures |w| > 3 ==> !(Begins(w, "connection") && Begins(w, "content-length"))
    ensures |w| <= 3 ==> (Begins(w, "connection") <==> Begins(w, "content-length"))
  {
    assert Begins(w, "connection") ==> w[0] == 'c' && (|w| > 3 ==> w[3] == 'n');
    assert Begins(w, "content-length") ==> w[0] == 'c' && (|w| > 3 ==> w[3] == 't');
    assert Begins(w, "proxy-connection") ==> w[0] == 'p';
    assert Begins(w, "transfer-encoding") ==> w[0] == 't';
    assert Begins(w, "upgrade") ==> w[0] == 'u';
    if |w| <= 3 {
      assert "connection"[..|w|] == "con"[..|w|] == "content-length"[..|w|];
    }
  }

  lemma TokenLowers(c: char)
    requires Token(c).Some?
    ensures Token(c).value == LowerChar(c) && c != ' '
  {
  }

  lemma LowerFirst(s: string)
    requires s != ""
    ensures Lower(s) == [LowerChar(s[0])] + Lower(s[1..])
  {
  }

  lemma FirstFollows(f: Fields, c: char)
    ensures Follows(FieldFirst(f, c), [c])
  {
    assert "connection"[..1] == ['c'] && "content-length"[..1] == ['c'];
    assert "proxy-connection"[..1] == ['p'] && "transfer-encoding"[..1] == ['t'] && "upgrade"[..1] == ['u'];
  }

  lemma FollowStep(f: Fields, ch: char, w: string)
    requires Legal(f) && Follows(f, w) && Token(ch).Some?
    ensures Follows(FieldChar(f, ch, LowerChar(ch)), w + [LowerChar(ch)])
  {
    var c := LowerChar(ch);
    TokenLowers(ch);
    TrackStep(w, c);
    FieldCharTracks(f, ch, c, w);
  }

  /** The header states, read as a table over the names. */
  function Tracked(w: string, c: char): HeaderState {
    match Track(w)
    case C => if c == 'o' then CO else General
    case CO => if c == 'n' then CON else General
    case CON => if c == 'n' then MatchingConnection else if c == 't' then MatchingContentLength else General
    case MatchingConnection => Matched(w, c, "connection", MatchingConnection, Connection)
    case MatchingContentLength => Matched(w, c, "content-length", MatchingContentLength, ContentLength)
    case MatchingProxyConnection => Matched(w, c, "proxy-connection", MatchingProxyConnection, Connection)
    case MatchingTransferEncoding => Matched(w, c, "transfer-encoding", MatchingTransferEncoding, TransferEncoding)
    case MatchingUpgrade => Matched(w, c, "upgrade", MatchingUpgrade, Upgrade)
    case _ => General
  }

  function Matched(w: string, c: char, name: string, on: HeaderState, found: HeaderState): HeaderState {
    if |w| >= |name| || c != name[|w|] then General else if |w| == |name| - 1 then found else on
  }

  lemma TrackStep(w: string, c: char)
    requires w != ""
    ensures Track(w + [c]) == Tracked(w, c)
  {
    BeginsApart(w);
    BeginsApart(w + [c]);
    BeginsStep(w, c, "connection");
    BeginsStep(w, c, "content-length");
    BeginsStep(w, c, "proxy-connection");
    BeginsStep(w, c, "transfer-encoding");
    BeginsStep(w, c, "upgrade");
  }

  lemma FieldCharTracks(f: Fields, ch: char, c: char, w: string)
    requires Legal(f) && Follows(f, w) && ch != ' '
    ensures var g := FieldChar(f, ch, c); g.state.HeaderField? && g.headerState == Tracked(w, c)
    ensures var g := FieldChar(f, ch, c); Comparing(g.headerState) ==> g.index == |w|
    ensures var g := FieldChar(f, ch, c); g == f.(headerState := g.headerState, index := g.index)
  {
  }

  lemma RoleTracked(w: string)
    requires w != ""
    ensures RoleOf(Track(w)) == Role(w)
  {
    BeginsApart(w);
    WholeName(w, "connection");
    WholeName(w, "content-length");
    WholeName(w, "proxy-connection");
    WholeName(w, "transfer-encoding");
    WholeName(w, "upgrade");
  }

  lemma WholeName(w: string, name: string)
    ensures Begins(w, name) && |w| == |name| <==> w == name
  {
    assert name[..|name|] == name;
  }

  lemma NameFirstGoes(f: Fields, ch: char) returns (g: Fields)
    requires AtLine(f) && Token(ch).Some?
    ensures Goes(f, [ch], g, [Byte(FIELD, ch)]) && Follows(g, [LowerChar(ch)])
    ensures g == Settled(f).(state := g.state, headerState := g.headerState, index := g.index)
  {
    TokenLowers(ch);
    LineNext(f, ch);
    FirstFollows(Settled(f), LowerChar(ch));
    g := FieldFirst(Settled(f), LowerChar(ch));
    GoesOne(f, ch);
  }

  /** A line that does not begin with a blank is a new one. */
  lemma LineNext(f: Fields, ch: char)
    requires AtLine(f) && !IsBlank(ch)
    ensures Next(f, ch) == FieldStartTurn(Settled(f), ch) && Settled(f) == f.(state := HeaderFieldStart, flags := Settled(f).flags)
  {
    if f.state.HeaderValueLws? {
      assert Next(f, ch) == LwsTurn(f, ch);
    } else if f.state.HeaderValueDiscardLws? {
      assert Next(f, ch) == DiscardLwsTurn(f, ch);
    }
  }

  lemma NameCharGoes(f: Fields, w: string, ch: char) returns (g: Fields)
    requires Legal(f) && Follows(f, w) && Token(ch).Some? && !f.upgrade
    ensures Goes(f, [ch], g, [Byte(FIELD, ch)]) && Follows(g, w + [LowerChar(ch)])
    ensures g == f.(headerState := g.headerState, index := g.index)
  {
    TokenLowers(ch);
    FollowStep(f, ch, w);
    FieldCharTracks(f, ch, LowerChar(ch), w);
    g := FieldChar(f, ch, LowerChar(ch));
    GoesOne(f, ch);
  }

  lemma {:induction false} NameRestGoes(f: Fields, w: string, s: string) returns (g: Fields)
    requires Legal(f) && Follows(f, w) && NameChars(s) && !f.upgrade
    ensures Goes(f, s, g, Bytes(FIELD, s)) && Follows(g, w + Lower(s))
    ensures g == f.(headerState := g.headerState, index := g.index)
    decreases |s|
  {
    if s == "" {
      GoesNothing(f);
      assert w + Lower(s) == w;
      g := f;
    } else {
      var h := NameCharGoes(f, w, s[0]);
      g := NameRestGoes(h, w + [LowerChar(s[0])], s[1..]);
      GoesOn(f, s, h, [Byte(FIELD, s[0])], g, Bytes(FIELD, s[1..]));
      FirstByte(FIELD, s);
      LowerFirst(s);
      assert w + [LowerChar(s[0])] + Lower(s[1..]) == w + Lower(s);
    }
  }

  lemma ColonGoes(f: Fields)
    requires Legal(f) && f.state.HeaderField? && !f.upgrade
    ensures Goes(f, ":", Goto(f, HeaderValueDiscardWs), [])
  {
    GoesOne(f, ':');
  }

  /** The name and its colon: the parser knows the name by what it is in small letters. */
  lemma NameGoes(f: Fields, s: string) returns (g: Fields)
    requires AtLine(f) && s != "" && NameChars(s)
    ensures Goes(f, s + ":", g, Bytes(FIELD, s)) && RoleOf(g.headerState) == Role(Lower(s)) && FieldLegal(g.headerState)
    ensures g == Settled(f).(state := HeaderValueDiscardWs, headerState := g.headerState, index := g.index)
  {
    var h1 := NameFirstGoes(f, s[0]);
    var h2 := NameRestGoes(h1, [LowerChar(s[0])], s[1..]);
    GoesOn(f, s, h1, [Byte(FIELD, s[0])], h2, Bytes(FIELD, s[1..]));
    FirstByte(FIELD, s);
    LowerFirst(s);
    g := Goto(h2, HeaderValueDiscardWs);
    ColonGoes(h2);
    GoesJoin(f, s, h2, Bytes(FIELD, s), ":", g, []);
    assert Bytes(FIELD, s) + [] == Bytes(FIELD, s);
    RoleTracked(Lower(s));
  }

  // ---------- the ends of values ----------

  lemma {:induction false} BlanksGo(f: Fields, s: string)
    requires Legal(f) && f.state.HeaderValueDiscardWs? && !f.upgrade && Blanks(s)
    ensures Goes(f, s, f, [])
    decreases |s|
  {
    if s == "" {
      GoesNothing(f);
    } else {
      GoesOne(f, s[0]);
      BlanksGo(f, s[1..]);
      GoesOn(f, s, f, [], f, []);
    }
  }

  lemma ValueEndGoes(f: Fields)
    requires Legal(f) && f.state.HeaderValue? && !f.upgrade
    ensures Goes(f, CRLF, Goto(f, HeaderValueLws), [])
  {
    var h := Goto(f, HeaderAlmostDone);
    GoesOne(f, CR);
    GoesOne(h, LF);
    GoesJoin(f, [CR], h, [], [LF], Goto(f, HeaderValueLws), []);
    assert [CR] + [LF] == CRLF;
  }

  lemma EmptyValueGoes(f: Fields)
    requires Legal(f) && f.state.HeaderValueDiscardWs? && !f.upgrade
    ensures Goes(f, CRLF, Goto(f, HeaderValueDiscardLws), [])
  {
    GoesTwo(f, CR, Goto(f, HeaderValueDiscardWsAlmostDone), LF, Goto(f, HeaderValueDiscardLws), []);
  }

  /** The end of a line that has a value. */
  lemma LineEndGoes(f: Fields, v: string, h: Fields)
    requires Goes(f, v, h, Bytes(VALUE, v)) && h.state.HeaderValue? && !h.upgrade
    ensures Goes(f, v + CRLF, Goto(h, HeaderValueLws), Bytes(VALUE, v)) && AtLine(Goto(h, HeaderValueLws))
  {
    ValueEndGoes(h);
    GoesJoin(f, v, h, Bytes(VALUE, v), CRLF, Goto(h, HeaderValueLws), []);
    assert Bytes(VALUE, v) + [] == Bytes(VALUE, v);
  }

  /** The empty line, up to its line feed. */
  lemma EmptyLineGoes(f: Fields)
    requires AtLine(f)
    ensures Goes(f, [CR], Goto(Settled(f), HeadersAlmostDone), [])
  {
    LineNext(f, CR);
    assert FieldStartTurn(Settled(f), CR) == Silent(Goto(Settled(f), HeadersAlmostDone));
    GoesOne(f, CR);
  }
}
