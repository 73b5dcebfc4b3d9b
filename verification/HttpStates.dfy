/** The fields of the http_parser struct, character classes, and the transitions that run no callback. Strict mode. */
module HttpStates {
  import opened CStrings

  const ULLONG_MAX: nat := 0xffff_ffff_ffff_ffff

  datatype Kind = REQUEST | RESPONSE | BOTH

  datatype State =
    | Dead | StartReqOrRes | ResOrRespH
    | StartRes | ResH | ResHT | ResHTT | ResHTTP | ResFirstMajor | ResMajor | ResFirstMinor | ResMinor
    | ResFirstStatusCode | ResStatusCode | ResStatusStart | ResStatus | ResLineAlmostDone
    | StartReq | ReqMethod | ReqSpacesBeforeUrl | ReqSchema | ReqSchemaSlash | ReqSchemaSlashSlash
    | ReqServerStart | ReqServer | ReqServerWithAt | ReqPath | ReqQueryStringStart | ReqQueryString
    | ReqFragmentStart | ReqFragment
    | ReqHttpStart | ReqHttpH | ReqHttpHT | ReqHttpHTT | ReqHttpHTTP
    | ReqFirstMajor | ReqMajor | ReqFirstMinor | ReqMinor | ReqLineAlmostDone
    | HeaderFieldStart | HeaderField | HeaderValueDiscardWs | HeaderValueDiscardWsAlmostDone | HeaderValueDiscardLws
    | HeaderValueStart | HeaderValue | HeaderValueLws | HeaderAlmostDone
    | ChunkSizeStart | ChunkSize | ChunkParameters | ChunkSizeAlmostDone
    | HeadersAlmostDone | HeadersDone
    | ChunkData | ChunkDataAlmostDone | ChunkDataDone | BodyIdentity | BodyIdentityEof | MessageDone

  predicate ParsingHeader(s: State) {
    !(s.ChunkData? || s.ChunkDataAlmostDone? || s.ChunkDataDone? || s.BodyIdentity? || s.BodyIdentityEof? || s.MessageDone?)
  }

  predicate UrlState(s: State) {
    s.ReqSchema? || s.ReqSchemaSlash? || s.ReqSchemaSlashSlash? || s.ReqServerStart? || s.ReqServer? || s.ReqServerWithAt?
    || s.ReqPath? || s.ReqQueryStringStart? || s.ReqQueryString? || s.ReqFragmentStart? || s.ReqFragment?
  }

  predicate ChunkState(s: State) {
    s.ChunkSizeStart? || s.ChunkSize? || s.ChunkParameters? || s.ChunkSizeAlmostDone?
    || s.ChunkData? || s.ChunkDataAlmostDone? || s.ChunkDataDone?
  }

  datatype HeaderState =
    | General | C | CO | CON
    | MatchingConnection | MatchingProxyConnection | MatchingContentLength | MatchingTransferEncoding | MatchingUpgrade
    | Connection | ContentLength | TransferEncoding | Upgrade
    | MatchingTransferEncodingChunked | MatchingConnectionTokenStart | MatchingConnectionKeepAlive
    | MatchingConnectionClose | MatchingConnectionUpgrade | MatchingConnectionToken
    | TransferEncodingChunked | ConnectionKeepAlive | ConnectionClose | ConnectionUpgrade

  /** What the header state can be while a field name is read. */
  predicate FieldLegal(h: HeaderState) {
    h.General? || h.C? || h.CO? || h.CON? || h.MatchingConnection? || h.MatchingProxyConnection? || h.MatchingContentLength?
    || h.MatchingTransferEncoding? || h.MatchingUpgrade? || h.Connection? || h.ContentLength? || h.TransferEncoding? || h.Upgrade?
  }

  /** What the header state can be while a value is read. */
  predicate ValueLegal(h: HeaderState) {
    h.General? || h.ContentLength? || h.MatchingTransferEncodingChunked? || h.MatchingConnectionTokenStart?
    || h.MatchingConnectionKeepAlive? || h.MatchingConnectionClose? || h.MatchingConnectionUpgrade? || h.MatchingConnectionToken?
    || h.TransferEncodingChunked? || h.ConnectionKeepAlive? || h.ConnectionClose? || h.ConnectionUpgrade?
  }

  datatype Flags = Flags(chunked: bool, keepAlive: bool, close: bool, connectionUpgrade: bool, trailing: bool, upgrade: bool,
                         skipBody: bool, contentLength: bool)

  const NO_FLAGS := Flags(false, false, false, false, false, false, false, false)

  datatype Method =
    | DELETE | GET | HEAD | POST | PUT | CONNECT | OPTIONS | TRACE | COPY | LOCK | MKCOL | MOVE | PROPFIND | PROPPATCH
    | SEARCH | UNLOCK | BIND | REBIND | UNBIND | ACL | REPORT | MKACTIVITY | CHECKOUT | MERGE | MSEARCH | NOTIFY
    | SUBSCRIBE | UNSUBSCRIBE | PATCH | PURGE | MKCALENDAR | LINK | UNLINK

  function MethodString(m: Method): string {
    match m
    case DELETE => "DELETE" case GET => "GET" case HEAD => "HEAD" case POST => "POST" case PUT => "PUT"
    case CONNECT => "CONNECT" case OPTIONS => "OPTIONS" case TRACE => "TRACE" case COPY => "COPY" case LOCK => "LOCK"
    case MKCOL => "MKCOL" case MOVE => "MOVE" case PROPFIND => "PROPFIND" case PROPPATCH => "PROPPATCH"
    case SEARCH => "SEARCH" case UNLOCK => "UNLOCK" case BIND => "BIND" case REBIND => "REBIND" case UNBIND => "UNBIND"
    case ACL => "ACL" case REPORT => "REPORT" case MKACTIVITY => "MKACTIVITY" case CHECKOUT => "CHECKOUT"
    case MERGE => "MERGE" case MSEARCH => "M-SEARCH" case NOTIFY => "NOTIFY" case SUBSCRIBE => "SUBSCRIBE"
    case UNSUBSCRIBE => "UNSUBSCRIBE" case PATCH => "PATCH" case PURGE => "PURGE" case MKCALENDAR => "MKCALENDAR"
    case LINK => "LINK" case UNLINK => "UNLINK"
  }

  datatype Errno =
    | OK | INVALID_EOF_STATE | HEADER_OVERFLOW | CLOSED_CONNECTION | INVALID_VERSION | INVALID_STATUS | INVALID_METHOD
    | INVALID_URL | LF_EXPECTED | INVALID_HEADER_TOKEN | INVALID_CONTENT_LENGTH | UNEXPECTED_CONTENT_LENGTH
    | INVALID_CHUNK_SIZE | INVALID_CONSTANT | STRICT

  /** The struct, but for nread. */
  datatype Fields = Fields(
    kind: Kind, flags: Flags, state: State, headerState: HeaderState, index: nat, contentLength: nat,
    major: nat, minor: nat, statusCode: nat, verb: Method, errno: Errno, upgrade: bool, lenient: bool)

  // ---------- characters ----------

  const CR: char := '\r'
  const LF: char := '\n'

  predicate IsNum(c: char) {
    '0' <= c <= '9'
  }

  /** c | 0x20 */
  function Lowered(c: char): char {
    var n := c as int % 256;
    if n / 32 % 2 == 0 then (n + 32) as char else n as char
  }

  predicate IsAlpha(c: char) {
    'a' <= c <= 'z' || 'A' <= c <= 'Z'
  }

  predicate IsUserinfoChar(c: char) {
    IsAlpha(c) || IsNum(c) || c in "-_.!~*'()" || c in "%;:&=+$,"
  }

  predicate IsUrlChar(c: char) {
    33 <= c as int < 127 && c != '#' && c != '?'
  }

  predicate IsHeaderChar(c: char) {
    c == CR || c == LF || c == '\t' || (31 < c as int && c as int != 127)
  }

  /** The tokens table: letters in lower case, and what RFC 2616 lets into a token. */
  function Token(c: char): Option<char> {
    if 'A' <= c <= 'Z' then Some((c as int + 32) as char)
    else if 'a' <= c <= 'z' || IsNum(c) || c in "!#$%&'*+-.^_`|~" then Some(c)
    else None
  }

  function Unhex(c: char): (r: Option<nat>)
    ensures r.Some? ==> r.value < 16
  {
    if IsNum(c) then Some(c as int - '0' as int)
    else if 'A' <= c <= 'F' then Some(10 + c as int - 'A' as int)
    else if 'a' <= c <= 'f' then Some(10 + c as int - 'a' as int)
    else None
  }

  // ---------- pure helpers of the parser ----------

  /** parse_url_char */
  function ParseUrlChar(s: State, ch: char): (r: State)
    ensures r.Dead? || UrlState(r)
  {
    if ch == ' ' || ch == CR || ch == LF || ch == '\t' || ch as int == 12 then Dead
    else
      match s
      case ReqSpacesBeforeUrl => if ch == '/' || ch == '*' then ReqPath else if IsAlpha(ch) then ReqSchema else Dead
      case ReqSchema => if IsAlpha(ch) then s else if ch == ':' then ReqSchemaSlash else Dead
      case ReqSchemaSlash => if ch == '/' then ReqSchemaSlashSlash else Dead
      case ReqSchemaSlashSlash => if ch == '/' then ReqServerStart else Dead
      case ReqServerWithAt => if ch == '@' then Dead else AfterServer(ch)
      case ReqServerStart => AfterServer(ch)
      case ReqServer => AfterServer(ch)
      case ReqPath => if IsUrlChar(ch) then s else if ch == '?' then ReqQueryStringStart else if ch == '#' then ReqFragmentStart else Dead
      case ReqQueryStringStart => AfterQuery(ch)
      case ReqQueryString => AfterQuery(ch)
      case ReqFragmentStart => if IsUrlChar(ch) || ch == '?' then ReqFragment else if ch == '#' then s else Dead
      case ReqFragment => if IsUrlChar(ch) || ch == '?' || ch == '#' then s else Dead
      case _ => Dead
  }

  function AfterServer(ch: char): State {
    if ch == '/' then ReqPath
    else if ch == '?' then ReqQueryStringStart
    else if ch == '@' then ReqServerWithAt
    else if IsUserinfoChar(ch) || ch == '[' || ch == ']' then ReqServer
    else Dead
  }

  function AfterQuery(ch: char): State {
    if IsUrlChar(ch) || ch == '?' then ReqQueryString else if ch == '#' then ReqFragmentStart else Dead
  }

  /** http_message_needs_eof */
  predicate NeedsEof(f: Fields) {
    && !f.kind.REQUEST?
    && !(f.statusCode / 100 == 1 || f.statusCode == 204 || f.statusCode == 304 || f.flags.skipBody)
    && !f.flags.chunked && f.contentLength == ULLONG_MAX
  }

  /** http_should_keep_alive */
  predicate ShouldKeepAlive(f: Fields) {
    && (if f.major > 0 && f.minor > 0 then !f.flags.close else f.flags.keepAlive)
    && !NeedsEof(f)
  }

  function StartState(f: Fields): State {
    if f.kind.REQUEST? then StartReq else StartRes
  }

  function NewMessage(f: Fields): State {
    if ShouldKeepAlive(f) then StartState(f) else Dead
  }

  function Fail(f: Fields, e: Errno): Fields {
    f.(errno := e)
  }

  function Goto(f: Fields, s: State): Fields {
    f.(state := s)
  }

  /** The states in which a byte runs no callback and sets no mark. */
  predicate IsQuiet(s: State) {
    QuietResponse(s) || QuietRequest(s)
  }

  predicate QuietResponse(s: State) {
    s.Dead? || s.ResOrRespH? || s.ResH? || s.ResHT? || s.ResHTT? || s.ResHTTP? || s.ResFirstMajor? || s.ResMajor?
    || s.ResFirstMinor? || s.ResMinor? || s.ResFirstStatusCode? || s.ResStatusCode? || s.ResLineAlmostDone?
  }

  predicate QuietRequest(s: State) {
    s.ReqMethod? || s.ReqHttpStart? || s.ReqHttpH? || s.ReqHttpHT? || s.ReqHttpHTT? || s.ReqHttpHTTP?
    || s.ReqFirstMajor? || s.ReqMajor? || s.ReqFirstMinor? || s.ReqMinor? || s.ReqLineAlmostDone?
    || s.HeaderValueDiscardWsAlmostDone? || s.HeaderAlmostDone?
    || s.ChunkSizeStart? || s.ChunkSize? || s.ChunkParameters?
  }

  function Expect(f: Fields, ch: char, wanted: char, next: State): Fields {
    if ch != wanted then Fail(f, STRICT) else Goto(f, next)
  }

  /** Another digit of a version number. */
  function MoreDigits(n: nat, ch: char): nat
    requires IsNum(ch)
  {
    10 * n + (ch as int - '0' as int)
  }

  function FirstDigit(ch: char): nat
    requires IsNum(ch)
  {
    ch as int - '0' as int
  }

  function ResVersion(f: Fields, ch: char): Fields {
    match f.state
    case ResFirstMajor => if !IsNum(ch) then Fail(f, INVALID_VERSION) else f.(major := FirstDigit(ch), state := ResMajor)
    case ResMajor =>
      if ch == '.' then Goto(f, ResFirstMinor)
      else if !IsNum(ch) then Fail(f, INVALID_VERSION)
      else CheckedMajor(f.(major := MoreDigits(f.major, ch)))
    case ResFirstMinor => if !IsNum(ch) then Fail(f, INVALID_VERSION) else f.(minor := FirstDigit(ch), state := ResMinor)
    case ResMinor =>
      if ch == ' ' then Goto(f, ResFirstStatusCode)
      else if !IsNum(ch) then Fail(f, INVALID_VERSION)
      else CheckedMinor(f.(minor := MoreDigits(f.minor, ch)))
    case _ => f
  }

  function CheckedMajor(f: Fields): Fields {
    if f.major > 999 then Fail(f, INVALID_VERSION) else f
  }

  function CheckedMinor(f: Fields): Fields {
    if f.minor > 999 then Fail(f, INVALID_VERSION) else f
  }

  function StatusCode(f: Fields, ch: char): Fields {
    if f.state.ResFirstStatusCode? then
      if IsNum(ch) then f.(statusCode := FirstDigit(ch), state := ResStatusCode)
      else if ch == ' ' then f
      else Fail(f, INVALID_STATUS)
    else if IsNum(ch) then
      var g := f.(statusCode := MoreDigits(f.statusCode, ch));
      if g.statusCode > 999 then Fail(g, INVALID_STATUS) else g
    else if ch == ' ' then Goto(f, ResStatusStart)
    else if ch == CR then Goto(f, ResLineAlmostDone)
    else if ch == LF then Goto(f, HeaderFieldStart)
    else Fail(f, INVALID_STATUS)
  }

  function ReqVersion(f: Fields, ch: char): Fields {
    match f.state
    case ReqFirstMajor =>
      if ch < '1' || ch > '9' then Fail(f, INVALID_VERSION) else f.(major := FirstDigit(ch), state := ReqMajor)
    case ReqMajor =>
      if ch == '.' then Goto(f, ReqFirstMinor)
      else if !IsNum(ch) then Fail(f, INVALID_VERSION)
      else CheckedMajor(f.(major := MoreDigits(f.major, ch)))
    case ReqFirstMinor => if !IsNum(ch) then Fail(f, INVALID_VERSION) else f.(minor := FirstDigit(ch), state := ReqMinor)
    case ReqMinor =>
      if ch == CR then Goto(f, ReqLineAlmostDone)
      else if ch == LF then Goto(f, HeaderFieldStart)
      else if !IsNum(ch) then Fail(f, INVALID_VERSION)
      else CheckedMinor(f.(minor := MoreDigits(f.minor, ch)))
    case _ => f
  }

  /** The first letter picks the method that is matched first. */
  function FirstMethod(ch: char): Option<Method> {
    if ch == 'A' then Some(ACL) else if ch == 'B' then Some(BIND) else if ch == 'C' then Some(CONNECT)
    else if ch == 'D' then Some(DELETE) else if ch == 'G' then Some(GET) else if ch == 'H' then Some(HEAD)
    else if ch == 'L' then Some(LOCK) else if ch == 'M' then Some(MKCOL) else if ch == 'N' then Some(NOTIFY)
    else if ch == 'O' then Some(OPTIONS) else if ch == 'P' then Some(POST) else if ch == 'R' then Some(REPORT)
    else if ch == 'S' then Some(SUBSCRIBE) else if ch == 'T' then Some(TRACE) else if ch == 'U' then Some(UNLOCK)
    else None
  }

  /** Where a letter turns one method into another. */
  function OtherMethod(m: Method, index: nat, ch: char): (r: Option<Method>)
    ensures r.Some? ==> index < |MethodString(r.value)| && index <= 4
  {
    if m.POST? && index == 1 && ch == 'U' then Some(PUT)
    else if m.POST? && index == 1 && ch == 'A' then Some(PATCH)
    else if m.CONNECT? && index == 1 && ch == 'H' then Some(CHECKOUT)
    else if m.CONNECT? && index == 2 && ch == 'P' then Some(COPY)
    else if m.MKCOL? && index == 1 && ch == 'O' then Some(MOVE)
    else if m.MKCOL? && index == 1 && ch == 'E' then Some(MERGE)
    else if m.MKCOL? && index == 2 && ch == 'A' then Some(MKACTIVITY)
    else if m.MKCOL? && index == 3 && ch == 'A' then Some(MKCALENDAR)
    else if m.SUBSCRIBE? && index == 1 && ch == 'E' then Some(SEARCH)
    else if m.REPORT? && index == 2 && ch == 'B' then Some(REBIND)
    else if m.POST? && index == 1 && ch == 'R' then Some(PROPFIND)
    else if m.PROPFIND? && index == 4 && ch == 'P' then Some(PROPPATCH)
    else if m.PUT? && index == 2 && ch == 'R' then Some(PURGE)
    else if m.LOCK? && index == 1 && ch == 'I' then Some(LINK)
    else if m.UNLOCK? && index == 2 && ch == 'S' then Some(UNSUBSCRIBE)
    else if m.UNLOCK? && index == 2 && ch == 'B' then Some(UNBIND)
    else if m.UNLOCK? && index == 3 && ch == 'I' then Some(UNLINK)
    else None
  }

  /** s_req_method. The method string has a NUL behind it. */
  function MethodChar(f: Fields, ch: char): Fields
    requires f.index <= |MethodString(f.verb)|
  {
    var matcher := MethodString(f.verb);
    var next := f.(index := f.index + 1);
    if ch as int == 0 then Fail(f, INVALID_METHOD)
    else if ch == ' ' && f.index == |matcher| then Goto(next, ReqSpacesBeforeUrl)
    else if f.index < |matcher| && ch == matcher[f.index] then next
    else if IsAlpha(ch) then
      var other := OtherMethod(f.verb, f.index, ch);
      if other == None then Fail(f, INVALID_METHOD) else next.(verb := other.value)
    else if ch == '-' && f.index == 1 && f.verb.MKCOL? then next.(verb := MSEARCH)
    else Fail(f, INVALID_METHOD)
  }

  function ChunkSizeChar(f: Fields, ch: char): Fields {
    if f.state.ChunkSizeStart? then
      if Unhex(ch) == None then Fail(f, INVALID_CHUNK_SIZE)
      else f.(contentLength := Unhex(ch).value, state := ChunkSize)
    else if ch == CR then Goto(f, ChunkSizeAlmostDone)
    else if f.state.ChunkParameters? then f
    else if Unhex(ch) == None then
      if ch == ';' || ch == ' ' then Goto(f, ChunkParameters) else Fail(f, INVALID_CHUNK_SIZE)
    else
      var t := (f.contentLength * 16 + Unhex(ch).value) % (ULLONG_MAX + 1);
      if (ULLONG_MAX - 16) / 16 < f.contentLength then Fail(f, INVALID_CONTENT_LENGTH) else f.(contentLength := t)
  }

  function ResponseOrHead(f: Fields, ch: char): Fields {
    if ch == 'T' then f.(kind := RESPONSE, state := ResHT)
    else if ch != 'E' then Fail(f, INVALID_CONSTANT)
    else f.(kind := REQUEST, verb := HEAD, index := 2, state := ReqMethod)
  }

  /** One byte in a quiet state. */
  function Quiet(f: Fields, ch: char): Fields
    requires IsQuiet(f.state) && (f.state.ReqMethod? ==> f.index <= |MethodString(f.verb)|)
  {
    match f.state
    case Dead => if ch == CR || ch == LF then f else Fail(f, CLOSED_CONNECTION)
    case ResOrRespH => ResponseOrHead(f, ch)
    case ResH => Expect(f, ch, 'T', ResHT)
    case ResHT => Expect(f, ch, 'T', ResHTT)
    case ResHTT => Expect(f, ch, 'P', ResHTTP)
    case ResHTTP => Expect(f, ch, '/', ResFirstMajor)
    case ResFirstStatusCode => StatusCode(f, ch)
    case ResStatusCode => StatusCode(f, ch)
    case ResLineAlmostDone => Expect(f, ch, LF, HeaderFieldStart)
    case ReqMethod => MethodChar(f, ch)
    case ReqHttpStart => if ch == 'H' then Goto(f, ReqHttpH) else if ch == ' ' then f else Fail(f, INVALID_CONSTANT)
    case ReqHttpH => Expect(f, ch, 'T', ReqHttpHT)
    case ReqHttpHT => Expect(f, ch, 'T', ReqHttpHTT)
    case ReqHttpHTT => Expect(f, ch, 'P', ReqHttpHTTP)
    case ReqHttpHTTP => Expect(f, ch, '/', ReqFirstMajor)
    case ReqLineAlmostDone => if ch != LF then Fail(f, LF_EXPECTED) else Goto(f, HeaderFieldStart)
    case HeaderValueDiscardWsAlmostDone => Expect(f, ch, LF, HeaderValueDiscardLws)
    case HeaderAlmostDone => if ch != LF then Fail(f, LF_EXPECTED) else Goto(f, HeaderValueLws)
    case ChunkSizeStart => ChunkSizeChar(f, ch)
    case ChunkSize => ChunkSizeChar(f, ch)
    case ChunkParameters => ChunkSizeChar(f, ch)
    case _ => if f.state.ReqFirstMajor? || f.state.ReqMajor? || f.state.ReqFirstMinor? || f.state.ReqMinor?
              then ReqVersion(f, ch) else ResVersion(f, ch)
  }
}
