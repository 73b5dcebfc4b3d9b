/** The parser one byte at a time: what every byte does to the fields, and what the callbacks are told. */
module HttpReference {
  import opened CStrings
  import opened HttpStates

  datatype DataKind = URL | STATUS | FIELD | VALUE | BODY
  datatype Notice = MessageBegin | HeadersComplete | MessageComplete | ChunkHeader | ChunkComplete

  /** What a callback says, in the smallest pieces: a notice, or one byte of data. */
  datatype Atom = Note(n: Notice) | Byte(kind: DataKind, ch: char)

  /** The fields afterwards, what was said, and whether the rest of the input is in another protocol. */
  datatype Turn = Turn(f: Fields, atoms: seq<Atom>, stop: bool)

  function Silent(f: Fields): Turn {
    Turn(f, [], false)
  }

  function Tells(f: Fields, n: Notice): Turn {
    Turn(f, [Note(n)], false)
  }

  /** The byte is data, unless it was an error. */
  function Gives(f: Fields, kind: DataKind, ch: char): Turn {
    if f.errno.OK? then Turn(f, [Byte(kind, ch)], false) else Silent(f)
  }

  // ---------- the start of a message ----------

  function Fresh(f: Fields): Fields {
    f.(flags := NO_FLAGS, contentLength := ULLONG_MAX)
  }

  function StartReqTurn(f: Fields, ch: char): Turn {
    if ch == CR || ch == LF then Silent(f)
    else if !IsAlpha(ch) || FirstMethod(ch) == None then Silent(Fail(Fresh(f), INVALID_METHOD))
    else Tells(Fresh(f).(verb := FirstMethod(ch).value, index := 1, state := ReqMethod), MessageBegin)
  }

  function StartResTurn(f: Fields, ch: char): Turn {
    if ch == 'H' then Tells(Goto(Fresh(f), ResH), MessageBegin)
    else if ch == CR || ch == LF then Tells(Fresh(f), MessageBegin)
    else Silent(Fail(Fresh(f), INVALID_CONSTANT))
  }

  function StartBothTurn(f: Fields, ch: char): Turn {
    if ch == CR || ch == LF then Silent(f)
    else if ch == 'H' then Tells(Goto(Fresh(f), ResOrRespH), MessageBegin)
    else StartReqTurn(Goto(Fresh(f).(kind := REQUEST), StartReq), ch)
  }

  // ---------- status line and URL ----------

  function StatusTurn(f: Fields, ch: char): Turn {
    if ch == CR then Silent(Goto(f, ResLineAlmostDone))
    else if ch == LF then Silent(Goto(f, HeaderFieldStart))
    else Gives(if f.state.ResStatusStart? then f.(state := ResStatus, index := 0) else f, STATUS, ch)
  }

  function UrlChar(f: Fields, s: State, ch: char): Fields {
    var next := ParseUrlChar(s, ch);
    if next.Dead? then Fail(Goto(f, Dead), INVALID_URL) else Goto(f, next)
  }

  /** The states in which a URL cannot end. */
  predicate UrlOpen(s: State) {
    s.ReqSchema? || s.ReqSchemaSlash? || s.ReqSchemaSlashSlash? || s.ReqServerStart?
  }

  function UrlTurn(f: Fields, ch: char): Turn {
    if UrlOpen(f.state) && (ch == ' ' || ch == CR || ch == LF) then Silent(Fail(f, INVALID_URL))
    else if ch == ' ' then Silent(Goto(f, ReqHttpStart))
    else if ch == CR then Silent(f.(major := 0, minor := 9, state := ReqLineAlmostDone))
    else if ch == LF then Silent(f.(major := 0, minor := 9, state := HeaderFieldStart))
    else Gives(UrlChar(f, f.state, ch), URL, ch)
  }

  function BeforeUrlTurn(f: Fields, ch: char): Turn {
    if ch == ' ' then Silent(f)
    else Gives(UrlChar(f, if f.verb.CONNECT? then ReqServerStart else f.state, ch), URL, ch)
  }

  // ---------- header fields ----------

  /** Another character of a name that is being matched; the string has a NUL behind it. */
  function MatchNext(f: Fields, c: char, name: string, found: HeaderState, lost: HeaderState): Fields {
    var i := f.index + 1;
    if i >= |name| || c != name[i] then f.(index := i, headerState := lost)
    else if i == |name| - 1 then f.(index := i, headerState := found)
    else f.(index := i)
  }

  function Either(f: Fields, h: HeaderState): Fields {
    f.(index := f.index + 1, headerState := h)
  }

  /** s_header_field, for a character that is the token character `c`. */
  function FieldChar(f: Fields, ch: char, c: char): Fields {
    match f.headerState
    case C => Either(f, if c == 'o' then CO else General)
    case CO => Either(f, if c == 'n' then CON else General)
    case CON => Either(f, if c == 'n' then MatchingConnection else if c == 't' then MatchingContentLength else General)
    case MatchingConnection => MatchNext(f, c, "connection", Connection, General)
    case MatchingProxyConnection => MatchNext(f, c, "proxy-connection", Connection, General)
    case MatchingContentLength => MatchNext(f, c, "content-length", ContentLength, General)
    case MatchingTransferEncoding => MatchNext(f, c, "transfer-encoding", TransferEncoding, General)
    case MatchingUpgrade => MatchNext(f, c, "upgrade", Upgrade, General)
    case Connection => if ch != ' ' then f.(headerState := General) else f
    case ContentLength => if ch != ' ' then f.(headerState := General) else f
    case TransferEncoding => if ch != ' ' then f.(headerState := General) else f
    case Upgrade => if ch != ' ' then f.(headerState := General) else f
    case _ => f
  }

  function FieldFirst(f: Fields, c: char): Fields {
    f.(index := 0, state := HeaderField,
       headerState := if c == 'c' then C else if c == 'p' then MatchingProxyConnection
                      else if c == 't' then MatchingTransferEncoding else if c == 'u' then MatchingUpgrade else General)
  }

  /** The start of a header line, or the end of the header. */
  function FieldStartTurn(f: Fields, ch: char): Turn {
    if ch == CR then Silent(Goto(f, HeadersAlmostDone))
    else if ch == LF then HeadersAlmostDoneTurn(Goto(f, HeadersAlmostDone), ch)
    else if Token(ch) == None then Silent(Fail(f, INVALID_HEADER_TOKEN))
    else Gives(FieldFirst(f, Token(ch).value), FIELD, ch)
  }

  function FieldTurn(f: Fields, ch: char): Turn {
    if Token(ch).Some? then Gives(FieldChar(f, ch, Token(ch).value), FIELD, ch)
    else if ch == ':' then Silent(Goto(f, HeaderValueDiscardWs))
    else Silent(Fail(f, INVALID_HEADER_TOKEN))
  }

  // ---------- header values ----------

  function Starting(f: Fields, h: HeaderState): Fields {
    f.(state := HeaderValue, index := 0, headerState := h)
  }

  /** s_header_value_start */
  function ValueFirst(f: Fields, ch: char): Fields {
    var c := Lowered(ch);
    match f.headerState
    case Upgrade => Starting(f.(flags := f.flags.(upgrade := true)), General)
    case TransferEncoding => Starting(f, if c == 'c' then MatchingTransferEncodingChunked else General)
    case ContentLength =>
      if !IsNum(ch) then Fail(f, INVALID_CONTENT_LENGTH)
      else if f.flags.contentLength then Fail(f, UNEXPECTED_CONTENT_LENGTH)
      else Starting(f.(flags := f.flags.(contentLength := true), contentLength := FirstDigit(ch)), ContentLength)
    case Connection =>
      Starting(f, if c == 'k' then MatchingConnectionKeepAlive else if c == 'c' then MatchingConnectionClose
                  else if c == 'u' then MatchingConnectionUpgrade else MatchingConnectionToken)
    case MatchingConnectionTokenStart => Starting(f, MatchingConnectionTokenStart)
    case _ => Starting(f, General)
  }

  function LengthDigit(f: Fields, ch: char): Fields {
    if ch == ' ' then f
    else if !IsNum(ch) then Fail(f, INVALID_CONTENT_LENGTH)
    else
      var t := (f.contentLength * 10 + FirstDigit(ch)) % (ULLONG_MAX + 1);
      if (ULLONG_MAX - 10) / 10 < f.contentLength then Fail(f, INVALID_CONTENT_LENGTH) else f.(contentLength := t)
  }

  function TokenStartChar(f: Fields, c: char): Fields {
    f.(headerState :=
      if c == 'k' then MatchingConnectionKeepAlive
      else if c == 'c' then MatchingConnectionClose
      else if c == 'u' then MatchingConnectionUpgrade
      else if Token(c).Some? then MatchingConnectionToken
      else if c == ' ' || c == '\t' then MatchingConnectionTokenStart
      else General)
  }

  /** The flag that a finished header stands for. */
  function Concluded(f: Fields): Fields {
    match f.headerState
    case ConnectionKeepAlive => f.(flags := f.flags.(keepAlive := true))
    case ConnectionClose => f.(flags := f.flags.(close := true))
    case ConnectionUpgrade => f.(flags := f.flags.(connectionUpgrade := true))
    case TransferEncodingChunked => f.(flags := f.flags.(chunked := true))
    case _ => f
  }

  function TokenEndChar(f: Fields, ch: char): Fields {
    if ch == ',' then Concluded(f).(headerState := MatchingConnectionTokenStart, index := 0)
    else if ch != ' ' then f.(headerState := MatchingConnectionToken)
    else f
  }

  /** s_header_value, for a character that does not end the line. */
  function ValueChar(f: Fields, ch: char): Fields {
    var c := Lowered(ch);
    match f.headerState
    case ContentLength => LengthDigit(f, ch)
    case MatchingTransferEncodingChunked => MatchNext(f, c, "chunked", TransferEncodingChunked, General)
    case MatchingConnectionTokenStart => TokenStartChar(f, c)
    case MatchingConnectionKeepAlive => MatchNext(f, c, "keep-alive", ConnectionKeepAlive, MatchingConnectionToken)
    case MatchingConnectionClose => MatchNext(f, c, "close", ConnectionClose, MatchingConnectionToken)
    case MatchingConnectionUpgrade => MatchNext(f, c, "upgrade", ConnectionUpgrade, MatchingConnectionToken)
    case MatchingConnectionToken => if ch == ',' then f.(headerState := MatchingConnectionTokenStart, index := 0) else f
    case TransferEncodingChunked => if ch != ' ' then f.(headerState := General) else f
    case ConnectionKeepAlive => TokenEndChar(f, ch)
    case ConnectionClose => TokenEndChar(f, ch)
    case ConnectionUpgrade => TokenEndChar(f, ch)
    case _ => f.(headerState := General)
  }

  /** In a value that has been recognised as ordinary, characters are not checked any more. */
  predicate ValueCharBad(f: Fields, ch: char) {
    !f.lenient && !IsHeaderChar(ch) && !f.headerState.General?
  }

  function ValueTurn(f: Fields, ch: char): Turn {
    if ch == CR then Silent(Goto(f, HeaderAlmostDone))
    else if ch == LF then Silent(Goto(f, HeaderValueLws))
    else if ValueCharBad(f, ch) then Silent(Fail(f, INVALID_HEADER_TOKEN))
    else Gives(ValueChar(f, ch), VALUE, ch)
  }

  function DiscardWsTurn(f: Fields, ch: char): Turn {
    if ch == ' ' || ch == '\t' then Silent(f)
    else if ch == CR then Silent(Goto(f, HeaderValueDiscardWsAlmostDone))
    else if ch == LF then Silent(Goto(f, HeaderValueDiscardLws))
    else Gives(ValueFirst(f, ch), VALUE, ch)
  }

  /** Behind a line break: the value goes on, or the header is finished. */
  function LwsTurn(f: Fields, ch: char): Turn {
    if ch == ' ' || ch == '\t' then Gives(ValueFirst(f, ch), VALUE, ch)
    else FieldStartTurn(Goto(Concluded(f), HeaderFieldStart), ch)
  }

  function DiscardLwsTurn(f: Fields, ch: char): Turn {
    if ch == ' ' || ch == '\t' then Silent(Goto(f, HeaderValueDiscardWs))
    else FieldStartTurn(Goto(Concluded(f), HeaderFieldStart), ch)
  }

  // ---------- the end of the header ----------

  function MessageDoneTurn(f: Fields): Turn {
    Turn(Goto(f, NewMessage(f)), [Note(MessageComplete)], f.upgrade)
  }

  predicate HasBody(f: Fields) {
    f.flags.chunked || (f.contentLength > 0 && f.contentLength != ULLONG_MAX)
  }

  /** s_headers_done */
  function BodyTurn(f: Fields): Turn {
    if f.upgrade && (f.verb.CONNECT? || f.flags.skipBody || !HasBody(f)) then
      Turn(Goto(f, NewMessage(f)), [Note(MessageComplete)], true)
    else if f.flags.skipBody then Tells(Goto(f, NewMessage(f)), MessageComplete)
    else if f.flags.chunked then Silent(Goto(f, ChunkSizeStart))
    else if f.contentLength == 0 then Tells(Goto(f, NewMessage(f)), MessageComplete)
    else if f.contentLength != ULLONG_MAX then Silent(Goto(f, BodyIdentity))
    else if !NeedsEof(f) then Tells(Goto(f, NewMessage(f)), MessageComplete)
    else Silent(Goto(f, BodyIdentityEof))
  }

  function Upgraded(f: Fields): bool {
    (f.flags.upgrade && f.flags.connectionUpgrade) || f.verb.CONNECT?
  }

  /** `n`, and then what the turn says. */
  function After(n: Notice, t: Turn): Turn {
    Turn(t.f, [Note(n)] + t.atoms, t.stop)
  }

  /** s_headers_almost_done, with an on_headers_complete that returns 0. */
  function HeadersAlmostDoneTurn(f: Fields, ch: char): Turn {
    if ch != LF then Silent(Fail(f, STRICT))
    else if f.flags.trailing then After(ChunkComplete, MessageDoneTurn(f))
    else if f.flags.chunked && f.flags.contentLength then Silent(Fail(f, UNEXPECTED_CONTENT_LENGTH))
    else After(HeadersComplete, BodyTurn(f.(upgrade := Upgraded(f))))
  }

  // ---------- bodies ----------

  function IdentityTurn(f: Fields, ch: char): Turn
    requires f.contentLength > 0
  {
    var g := f.(contentLength := f.contentLength - 1);
    if g.contentLength == 0 then
      var done := MessageDoneTurn(g);
      Turn(done.f, [Byte(BODY, ch)] + done.atoms, done.stop)
    else Gives(g, BODY, ch)
  }

  function ChunkDataTurn(f: Fields, ch: char): Turn
    requires f.contentLength > 0
  {
    var g := f.(contentLength := f.contentLength - 1);
    Gives(if g.contentLength == 0 then Goto(g, ChunkDataAlmostDone) else g, BODY, ch)
  }

  function ChunkSizeAlmostDoneTurn(f: Fields, ch: char): Turn {
    if ch != LF then Silent(Fail(f, STRICT))
    else if f.contentLength == 0 then Tells(f.(flags := f.flags.(trailing := true), state := HeaderFieldStart), ChunkHeader)
    else Tells(Goto(f, ChunkData), ChunkHeader)
  }

  function ChunkDataDoneTurn(f: Fields, ch: char): Turn {
    if ch != LF then Silent(Fail(f, STRICT)) else Tells(Goto(f, ChunkSizeStart), ChunkComplete)
  }

  // ---------- what holds between two bytes ----------

  /** The parser never waits for a byte in these states. */
  predicate Transient(s: State) {
    s.HeaderValueStart? || s.HeadersDone? || s.MessageDone?
  }

  /** Names are compared letter by letter in these header states. */
  predicate Comparing(h: HeaderState) {
    h.C? || h.CO? || h.CON? || h.MatchingConnection? || h.MatchingProxyConnection? || h.MatchingContentLength?
    || h.MatchingTransferEncoding? || h.MatchingUpgrade? || h.MatchingTransferEncodingChunked?
    || h.MatchingConnectionTokenStart? || h.MatchingConnectionKeepAlive? || h.MatchingConnectionClose?
    || h.MatchingConnectionUpgrade?
  }

  predicate LegalHeader(f: Fields) {
    && (f.state.HeaderField? ==> FieldLegal(f.headerState))
    && (f.state.HeaderValue? || f.state.HeaderAlmostDone? || f.state.HeaderValueLws? ==> ValueLegal(f.headerState))
    && (f.state.HeaderField? || f.state.HeaderValue? ==> (Comparing(f.headerState) ==> f.index <= 15))
    && (f.state.HeaderField? ==> (f.headerState.C? ==> f.index == 0) && (f.headerState.CO? ==> f.index == 1) && (f.headerState.CON? ==> f.index == 2))
    && (f.state.HeaderValue? && f.headerState.ContentLength? ==> f.contentLength < ULLONG_MAX)
  }

  predicate LegalBody(f: Fields) {
    && (ChunkState(f.state) ==> f.flags.chunked)
    && (f.state.ChunkSize? || f.state.ChunkParameters? || f.state.ChunkSizeAlmostDone? ==> f.contentLength < ULLONG_MAX)
    && (f.state.ChunkData? || f.state.BodyIdentity? ==> 0 < f.contentLength < ULLONG_MAX)
    && (f.state.ChunkDataAlmostDone? ==> f.contentLength == 0)
  }

  /** What every state relies on. The index never comes near the end of its seven bits. */
  predicate Legal(f: Fields) {
    && f.errno.OK? && !Transient(f.state) && f.contentLength <= ULLONG_MAX && f.index <= 17
    && (f.state.ReqMethod? ==> f.index <= |MethodString(f.verb)|)
    && LegalHeader(f) && LegalBody(f)
  }

  function Next(f: Fields, ch: char): Turn
    requires Legal(f)
  {
    if IsQuiet(f.state) then Silent(Quiet(f, ch))
    else if UrlState(f.state) then UrlTurn(f, ch)
    else
      match f.state
      case StartReqOrRes => StartBothTurn(f, ch)
      case StartRes => StartResTurn(f, ch)
      case StartReq => StartReqTurn(f, ch)
      case ResStatusStart => StatusTurn(f, ch)
      case ResStatus => StatusTurn(f, ch)
      case ReqSpacesBeforeUrl => BeforeUrlTurn(f, ch)
      case HeaderFieldStart => FieldStartTurn(f, ch)
      case HeaderField => FieldTurn(f, ch)
      case HeaderValueDiscardWs => DiscardWsTurn(f, ch)
      case HeaderValueDiscardLws => DiscardLwsTurn(f, ch)
      case HeaderValue => ValueTurn(f, ch)
      case HeaderValueLws => LwsTurn(f, ch)
      case HeadersAlmostDone => HeadersAlmostDoneTurn(f, ch)
      case BodyIdentity => IdentityTurn(f, ch)
      case BodyIdentityEof => Gives(f, BODY, ch)
      case ChunkSizeAlmostDone => ChunkSizeAlmostDoneTurn(f, ch)
      case ChunkData => ChunkDataTurn(f, ch)
      case ChunkDataAlmostDone => Silent(Expect(f, ch, CR, ChunkDataDone))
      case ChunkDataDone => ChunkDataDoneTurn(f, ch)
      case _ => Silent(f)
  }

  /** The turn ended the run: with an error, or because the rest is in another protocol. */
  predicate Ended(t: Turn) {
    t.stop || !t.f.errno.OK?
  }

  /** A step to a state that relies on nothing. */
  predicate Plain(s: State) {
    && !Transient(s) && !s.ReqMethod? && !s.HeaderField? && !s.HeaderValue? && !s.HeaderAlmostDone? && !s.HeaderValueLws?
    && !ChunkState(s) && !s.BodyIdentity?
  }

  lemma PlainLegal(f: Fields, g: Fields)
    requires Legal(f) && g.errno.OK? && Plain(g.state) && g.contentLength <= ULLONG_MAX && g.index <= 17
    ensures Legal(g)
  {
  }

  lemma MethodStrings(m: Method)
    ensures 3 <= |MethodString(m)| <= 11
  {
  }

  lemma MethodLegal(f: Fields, ch: char)
    requires Legal(f) && f.state.ReqMethod? && MethodChar(f, ch).errno.OK?
    ensures Legal(MethodChar(f, ch))
  {
    MethodStrings(f.verb);
    var g := MethodChar(f, ch);
    assert g.index == f.index + 1 && g.contentLength == f.contentLength;
    assert MethodString(MSEARCH) == "M-SEARCH";
    assert g.state.ReqMethod? ==> g.index <= |MethodString(g.verb)|;
  }

  lemma ChunkSizeLegal(f: Fields, ch: char)
    requires Legal(f) && (f.state.ChunkSizeStart? || f.state.ChunkSize? || f.state.ChunkParameters?)
    requires ChunkSizeChar(f, ch).errno.OK?
    ensures Legal(ChunkSizeChar(f, ch))
  {
  }

  /** Where the quiet states of the status line and the request line lead. */
  lemma LineLegal(f: Fields, ch: char)
    requires Legal(f) && IsQuiet(f.state) && !f.state.ReqMethod? && !ChunkState(f.state) && !f.state.ResOrRespH? && !f.state.HeaderAlmostDone?
    requires Quiet(f, ch).errno.OK?
    ensures Legal(Quiet(f, ch))
  {
    var g := Quiet(f, ch);
    if QuietResponse(f.state) {
      ResponsePlain(f, ch, g);
    } else {
      RequestPlain(f, ch, g);
    }
    PlainLegal(f, g);
  }

  lemma ResponsePlain(f: Fields, ch: char, g: Fields)
    requires Legal(f) && QuietResponse(f.state) && !f.state.ResOrRespH? && g == Quiet(f, ch) && g.errno.OK?
    ensures Plain(g.state) && g.contentLength == f.contentLength && g.index == f.index
  {
  }

  lemma RequestPlain(f: Fields, ch: char, g: Fields)
    requires Legal(f) && QuietRequest(f.state) && !f.state.ReqMethod? && !ChunkState(f.state) && !f.state.HeaderAlmostDone?
    requires g == Quiet(f, ch) && g.errno.OK?
    ensures Plain(g.state) && g.contentLength == f.contentLength && g.index == f.index
  {
  }

  lemma QuietLegal(f: Fields, ch: char)
    requires Legal(f) && IsQuiet(f.state) && Quiet(f, ch).errno.OK?
    ensures Legal(Quiet(f, ch))
  {
    if f.state.ReqMethod? {
      MethodLegal(f, ch);
    } else if ChunkState(f.state) {
      ChunkSizeLegal(f, ch);
    } else if f.state.ResOrRespH? {
      assert |MethodString(HEAD)| == 4;
    } else if !f.state.HeaderAlmostDone? {
      LineLegal(f, ch);
    }
  }

  lemma MatchNextLegal(f: Fields, c: char, name: string, found: HeaderState, lost: HeaderState)
    requires f.index <= 15 && |name| <= 17
    ensures var g := MatchNext(f, c, name, found, lost);
      && g == f.(index := f.index + 1, headerState := g.headerState)
      && (g.headerState == lost || g.headerState == found || (g.headerState == f.headerState && g.index <= 15))
  {
  }

  lemma FieldCharLegal(f: Fields, ch: char, c: char)
    requires Legal(f) && f.state.HeaderField?
    ensures Legal(FieldChar(f, ch, c))
  {
    var h := f.headerState;
    if h.MatchingConnection? || h.MatchingProxyConnection? || h.MatchingContentLength? || h.MatchingTransferEncoding? || h.MatchingUpgrade? {
      MatchNextLegal(f, c, "connection", Connection, General);
      MatchNextLegal(f, c, "proxy-connection", Connection, General);
      MatchNextLegal(f, c, "content-length", ContentLength, General);
      MatchNextLegal(f, c, "transfer-encoding", TransferEncoding, General);
      MatchNextLegal(f, c, "upgrade", Upgrade, General);
    }
    var g := FieldChar(f, ch, c);
    assert g == f.(index := g.index, headerState := g.headerState) && FieldLegal(g.headerState);
  }

  lemma ValueCharLegal(f: Fields, ch: char)
    requires Legal(f) && f.state.HeaderValue? && ValueChar(f, ch).errno.OK?
    ensures Legal(ValueChar(f, ch))
  {
    var h, c := f.headerState, Lowered(ch);
    if h.MatchingTransferEncodingChunked? {
      MatchNextLegal(f, c, "chunked", TransferEncodingChunked, General);
    } else if h.MatchingConnectionKeepAlive? || h.MatchingConnectionClose? || h.MatchingConnectionUpgrade? {
      MatchNextLegal(f, c, "keep-alive", ConnectionKeepAlive, MatchingConnectionToken);
      MatchNextLegal(f, c, "close", ConnectionClose, MatchingConnectionToken);
      MatchNextLegal(f, c, "upgrade", ConnectionUpgrade, MatchingConnectionToken);
    } else if !h.ContentLength? {
      var g := ValueChar(f, ch);
      assert g == f.(index := g.index, headerState := g.headerState, flags := g.flags) && g.index <= f.index && ValueLegal(g.headerState);
    }
  }

  lemma ValueFirstLegal(f: Fields, ch: char)
    requires f.errno.OK? && f.contentLength <= ULLONG_MAX && ValueFirst(f, ch).errno.OK?
    ensures Legal(ValueFirst(f, ch))
  {
    var g := ValueFirst(f, ch);
    assert g.state.HeaderValue? && g.index == 0 && ValueLegal(g.headerState);
  }

  lemma NewMessageLegal(f: Fields)
    requires f.errno.OK? && f.contentLength <= ULLONG_MAX && f.index <= 17
    ensures Legal(Goto(f, NewMessage(f)))
  {
  }

  lemma HeadersDoneLegal(f: Fields, ch: char)
    requires f.errno.OK? && f.contentLength <= ULLONG_MAX && f.index <= 17 && HeadersAlmostDoneTurn(f, ch).f.errno.OK?
    ensures Legal(HeadersAlmostDoneTurn(f, ch).f)
  {
    NewMessageLegal(f);
    NewMessageLegal(f.(upgrade := Upgraded(f)));
  }

  lemma FieldStartLegal(f: Fields, ch: char)
    requires f.errno.OK? && f.contentLength <= ULLONG_MAX && f.index <= 17 && FieldStartTurn(f, ch).f.errno.OK?
    ensures Legal(FieldStartTurn(f, ch).f)
  {
    if ch == LF {
      HeadersDoneLegal(Goto(f, HeadersAlmostDone), ch);
    }
  }

  lemma LwsLegal(f: Fields, ch: char)
    requires Legal(f) && (f.state.HeaderValueDiscardWs? || f.state.HeaderValueLws? || f.state.HeaderValueDiscardLws?)
    requires Next(f, ch).f.errno.OK?
    ensures Legal(Next(f, ch).f)
  {
    if f.state.HeaderValueDiscardWs? || ch == ' ' || ch == '\t' {
      if ValueFirst(f, ch).errno.OK? {
        ValueFirstLegal(f, ch);
      }
    } else {
      ConcludedKeeps(f);
      FieldStartLegal(Goto(Concluded(f), HeaderFieldStart), ch);
    }
  }

  lemma ConcludedKeeps(f: Fields)
    ensures Concluded(f) == f.(flags := Concluded(f).flags)
  {
  }

  lemma BodyLegal(f: Fields, ch: char)
    requires Legal(f) && !ParsingHeader(f.state) && Next(f, ch).f.errno.OK?
    ensures Legal(Next(f, ch).f)
  {
    if f.state.BodyIdentity? && f.contentLength == 1 {
      NewMessageLegal(f.(contentLength := 0));
    }
  }

  lemma StartLegal(f: Fields, ch: char)
    requires Legal(f) && (f.state.StartReqOrRes? || f.state.StartRes? || f.state.StartReq?) && Next(f, ch).f.errno.OK?
    ensures Legal(Next(f, ch).f)
  {
    var g := Next(f, ch).f;
    if g.state.ReqMethod? {
      MethodStrings(g.verb);
    } else {
      assert Plain(g.state) && g.index == f.index;
      PlainLegal(f, g);
    }
  }

  lemma TextLegal(f: Fields, ch: char)
    requires Legal(f) && (f.state.ResStatusStart? || f.state.ResStatus? || f.state.ReqSpacesBeforeUrl? || UrlState(f.state))
    requires Next(f, ch).f.errno.OK?
    ensures Legal(Next(f, ch).f)
  {
    var g := Next(f, ch).f;
    assert Plain(g.state) && g.index <= f.index && g.contentLength == f.contentLength;
    PlainLegal(f, g);
  }

  /** Whatever the byte, the parser is left in a legal state or with an error. */
  lemma NextLegal(f: Fields, ch: char)
    requires Legal(f) && Next(f, ch).f.errno.OK?
    ensures Legal(Next(f, ch).f)
  {
    if IsQuiet(f.state) {
      QuietLegal(f, ch);
    } else if f.state.HeaderField? {
      if Token(ch).Some? {
        FieldCharLegal(f, ch, Token(ch).value);
      }
    } else if f.state.HeaderValue? {
      if ValueChar(f, ch).errno.OK? {
        ValueCharLegal(f, ch);
      }
    } else if f.state.HeaderValueDiscardWs? || f.state.HeaderValueLws? || f.state.HeaderValueDiscardLws? {
      LwsLegal(f, ch);
    } else if f.state.HeaderFieldStart? {
      FieldStartLegal(f, ch);
    } else if f.state.HeadersAlmostDone? {
      HeadersDoneLegal(f, ch);
    } else if !ParsingHeader(f.state) {
      BodyLegal(f, ch);
    } else if f.state.StartReqOrRes? || f.state.StartRes? || f.state.StartReq? {
      StartLegal(f, ch);
    } else if f.state.ResStatusStart? || f.state.ResStatus? || f.state.ReqSpacesBeforeUrl? || UrlState(f.state) {
      TextLegal(f, ch);
    }
  }

  /** A whole input, byte by byte, up to an error or a change of protocol. */
  function Fold(f: Fields, s: string): Turn
    requires Legal(f)
    decreases |s|
  {
    if s == "" then Silent(f)
    else
      var t := Next(f, s[0]);
      if Ended(t) then t
      else
        NextLegal(f, s[0]);
        var rest := Fold(t.f, s[1..]);
        Turn(rest.f, t.atoms + rest.atoms, rest.stop)
  }

  lemma {:induction false} FoldLegal(f: Fields, s: string)
    requires Legal(f) && Fold(f, s).f.errno.OK?
    ensures Legal(Fold(f, s).f)
    decreases |s|
  {
    if s != "" {
      NextLegal(f, s[0]);
      if !Ended(Next(f, s[0])) {
        FoldLegal(Next(f, s[0]).f, s[1..]);
      }
    }
  }

  /** Two turns in a row. */
  function Both(t: Turn, rest: Turn): Turn {
    Turn(rest.f, t.atoms + rest.atoms, rest.stop)
  }

  lemma BothTwice(a: Turn, b: Turn, c: Turn)
    ensures Both(Both(a, b), c) == Both(a, Both(b, c))
  {
  }

  lemma FoldStep(f: Fields, s: string)
    requires Legal(f) && s != ""
    ensures Ended(Next(f, s[0])) ==> Fold(f, s) == Next(f, s[0])
    ensures !Ended(Next(f, s[0])) ==>
      Legal(Next(f, s[0]).f) && Fold(f, s) == Both(Next(f, s[0]), Fold(Next(f, s[0]).f, s[1..]))
  {
    if !Ended(Next(f, s[0])) {
      NextLegal(f, s[0]);
    }
  }

  /** Input in two pieces is the pieces in turn. */
  lemma {:induction false} FoldJoin(f: Fields, a: string, b: string)
    requires Legal(f)
    ensures Ended(Fold(f, a)) ==> Fold(f, a + b) == Fold(f, a)
    ensures !Ended(Fold(f, a)) ==> Legal(Fold(f, a).f) && Fold(f, a + b) == Both(Fold(f, a), Fold(Fold(f, a).f, b))
    decreases |a|
  {
    if a == "" {
      assert a + b == b;
      assert [] + Fold(f, b).atoms == Fold(f, b).atoms;
    } else {
      var t := Next(f, a[0]);
      assert (a + b)[1..] == a[1..] + b && (a + b)[0] == a[0];
      FoldStep(f, a);
      FoldStep(f, a + b);
      if !Ended(t) {
        FoldJoin(t.f, a[1..], b);
        if !Ended(Fold(t.f, a[1..])) {
          BothTwice(t, Fold(t.f, a[1..]), Fold(Fold(t.f, a[1..]).f, b));
        }
      }
    }
  }

  lemma FoldOne(f: Fields, ch: char)
    requires Legal(f)
    ensures Fold(f, [ch]) == Next(f, ch)
  {
    FoldStep(f, [ch]);
    assert [ch][1..] == "";
    if !Ended(Next(f, ch)) {
      assert Next(f, ch).atoms + [] == Next(f, ch).atoms;
    }
  }

  /** One byte more. */
  lemma FoldSnoc(f: Fields, s: string, ch: char)
    requires Legal(f) && !Ended(Fold(f, s))
    ensures Legal(Fold(f, s).f) && Fold(f, s + [ch]) == Both(Fold(f, s), Next(Fold(f, s).f, ch))
  {
    FoldJoin(f, s, [ch]);
    FoldOne(Fold(f, s).f, ch);
  }

  /** In an ordinary value the bytes are skipped, not checked, up to the end of the line or of the call: whether this byte is
      refused depends on where a call begins. */
  predicate Unchecked(f: Fields, ch: char) {
    f.state.HeaderValue? && f.headerState.General? && !f.lenient && !IsHeaderChar(ch)
  }

  /** No such byte is met on the way, and no other protocol was agreed on. */
  predicate Calm(f: Fields, s: string)
    requires Legal(f)
    decreases |s|
  {
    if f.upgrade then false
    else if s == "" then true
    else if Unchecked(f, s[0]) then false
    else if Ended(Next(f, s[0])) then true
    else
      NextLegal(f, s[0]);
      Calm(Next(f, s[0]).f, s[1..])
  }

  lemma {:induction false} CalmJoin(f: Fields, a: string, b: string)
    requires Legal(f)
    ensures !Ended(Fold(f, a)) ==> Legal(Fold(f, a).f)
    ensures Calm(f, a + b) <==> Calm(f, a) && (!Ended(Fold(f, a)) ==> Calm(Fold(f, a).f, b))
    decreases |a|
  {
    if a == "" {
      assert a + b == b;
    } else {
      assert (a + b)[1..] == a[1..] + b && (a + b)[0] == a[0];
      FoldStep(f, a);
      if !Ended(Next(f, a[0])) {
        CalmJoin(Next(f, a[0]).f, a[1..], b);
      }
    }
  }

  /** http_parser_init */
  function Init(kind: Kind, lenient: bool): (f: Fields)
    ensures Legal(f)
  {
    Fields(kind, NO_FLAGS, if kind.REQUEST? then StartReq else if kind.RESPONSE? then StartRes else StartReqOrRes,
           General, 0, 0, 0, 0, 0, DELETE, OK, false, lenient)
  }
}
