/**
 http_parser_execute. The calls on the callbacks, which are assumed to return 0 and to leave the parser alone, are recorded.
 Every assert of the C code is an assert here.
 */
module HttpParser {
  import opened CStrings
  import opened HttpStates
  import opened HttpReference
  import opened HttpBudget

  datatype Report = Notified(n: Notice) | Data(kind: DataKind, bytes: string)

  function Bytes(kind: DataKind, s: string): (r: seq<Atom>)
    ensures |r| == |s|
  {
    seq(|s|, i requires 0 <= i < |s| => Byte(kind, s[i]))
  }

  function AtomsOf(r: Report): seq<Atom> {
    match r
    case Notified(n) => [Note(n)]
    case Data(kind, bytes) => Bytes(kind, bytes)
  }

  /** What the callbacks were told, in the smallest pieces: how data was cut does not show. */
  function Atoms(said: seq<Report>): seq<Atom> {
    if said == [] then [] else Atoms(said[..|said| - 1]) + AtomsOf(said[|said| - 1])
  }

  lemma AtomsSnoc(said: seq<Report>, r: Report)
    ensures Atoms(said + [r]) == Atoms(said) + AtomsOf(r)
  {
    assert (said + [r])[..|said|] == said;
  }

  // ---------- marks ----------

  /** The local marks: where data that was not handed on yet begins. */
  datatype Marks = Marks(field: Option<nat>, value: Option<nat>, url: Option<nat>, body: Option<nat>, status: Option<nat>)

  const NO_MARKS := Marks(None, None, None, None, None)

  function Get(m: Marks, kind: DataKind): Option<nat> {
    match kind
    case FIELD => m.field
    case VALUE => m.value
    case URL => m.url
    case BODY => m.body
    case STATUS => m.status
  }

  function Set(m: Marks, kind: DataKind, p: Option<nat>): Marks {
    match kind
    case FIELD => m.(field := p)
    case VALUE => m.(value := p)
    case URL => m.(url := p)
    case BODY => m.(body := p)
    case STATUS => m.(status := p)
  }

  /** In which states data of a kind can be waiting. */
  predicate Waits(s: State, kind: DataKind) {
    match kind
    case FIELD => s.HeaderField?
    case VALUE => s.HeaderValue?
    case URL => UrlState(s)
    case BODY => s.BodyIdentity? || s.BodyIdentityEof? || s.ChunkData? || s.ChunkDataAlmostDone?
    case STATUS => s.ResStatus?
  }

  predicate MarksLegal(m: Marks, s: State, p: nat) {
    forall kind :: Get(m, kind).Some? ==> Waits(s, kind) && Get(m, kind).value <= p
  }

  lemma OneKind(s: State, a: DataKind, b: DataKind)
    requires Waits(s, a) && Waits(s, b)
    ensures a == b
  {
  }

  /** The data that was consumed but not handed on. */
  function Pending(m: Marks, data: string, p: nat): seq<Atom>
    requires p <= |data| && forall kind :: Get(m, kind).Some? ==> Get(m, kind).value <= p
  {
    if Get(m, FIELD).Some? then Bytes(FIELD, data[Get(m, FIELD).value..p])
    else if Get(m, VALUE).Some? then Bytes(VALUE, data[Get(m, VALUE).value..p])
    else if Get(m, URL).Some? then Bytes(URL, data[Get(m, URL).value..p])
    else if Get(m, BODY).Some? then Bytes(BODY, data[Get(m, BODY).value..p])
    else if Get(m, STATUS).Some? then Bytes(STATUS, data[Get(m, STATUS).value..p])
    else []
  }

  /** Only this kind of data is waiting. */
  predicate Only(m: Marks, kind: DataKind, p: nat) {
    (Get(m, kind).Some? ==> Get(m, kind).value <= p) && forall k :: k != kind ==> Get(m, k) == None
  }

  lemma OnlyWaiting(m: Marks, s: State, kind: DataKind, p: nat)
    requires MarksLegal(m, s, p) && Waits(s, kind)
    ensures Only(m, kind, p)
  {
    forall k | k != kind ensures Get(m, k) == None {
      if Get(m, k).Some? {
        OneKind(s, k, kind);
      }
    }
  }

  lemma NothingWaiting(m: Marks, s: State, p: nat)
    requires MarksLegal(m, s, p) && forall kind :: !Waits(s, kind)
    ensures m == NO_MARKS
  {
    assert Get(m, FIELD) == None && Get(m, VALUE) == None && Get(m, URL) == None && Get(m, BODY) == None && Get(m, STATUS) == None;
  }

  lemma PendingOnly(m: Marks, data: string, p: nat, kind: DataKind)
    requires p <= |data| && Only(m, kind, p)
    ensures Pending(m, data, p) == if Get(m, kind).Some? then Bytes(kind, data[Get(m, kind).value..p]) else []
  {
  }

  lemma BytesJoin(kind: DataKind, a: string, b: string)
    ensures Bytes(kind, a + b) == Bytes(kind, a) + Bytes(kind, b)
  {
  }

  /** Marking data that goes on up to `q`. */
  lemma PendingMore(m: Marks, data: string, p: nat, q: nat, kind: DataKind)
    requires p <= q <= |data| && Only(m, kind, p)
    ensures var m' := if Get(m, kind).Some? then m else Set(m, kind, Some(p));
      Only(m', kind, q) && Pending(m', data, q) == Pending(m, data, p) + Bytes(kind, data[p..q])
  {
    var m' := if Get(m, kind).Some? then m else Set(m, kind, Some(p));
    var start := Get(m', kind).value;
    PendingOnly(m, data, p, kind);
    PendingOnly(m', data, q, kind);
    assert data[start..q] == data[start..p] + data[p..q];
    BytesJoin(kind, data[start..p], data[p..q]);
    assert data[p..p] == "";
  }

  /** The reference takes `s` and refuses the next byte with the error `e`; or the byte is one that can be refused or skipped. */
  ghost predicate Refused(f: Fields, s: string, ch: char, e: Errno)
    requires Legal(f)
  {
    var t := Fold(f, s);
    && !Ended(t) && Legal(t.f) && !e.OK?
    && (if Unchecked(t.f, ch) then e.INVALID_HEADER_TOKEN? else e == Next(t.f, ch).f.errno)
  }

  /** What a run may count on: if `can`, the limit leaves room for the rest of the call and `later`. */
  datatype Budget = Budget(can: bool, n: nat, later: string)

  class Parser {
    var f: Fields
    var nread: nat
    var said: seq<Report>
    var marks: Marks

    constructor (kind: Kind, lenient: bool)
      ensures Valid() && f == Init(kind, lenient) && said == []
    {
      f, nread, said, marks := Init(kind, lenient), 0, [], NO_MARKS;
    }

    ghost predicate Valid()
      reads this
    {
      f.errno.OK? ==> Legal(f) && NreadLegal()
    }

    ghost predicate NreadLegal()
      reads this
    {
      f.state.ChunkSizeStart? ==> nread == 0
    }

    /** After `p` bytes: what was said and what is waiting make up `total`. */
    ghost predicate Told(data: string, p: nat, total: seq<Atom>)
      reads this
    {
      p <= |data| && MarksLegal(marks, f.state, p) && Atoms(said) + Pending(marks, data, p) == total
    }

    /** The byte at `p` was treated as the turn says. */
    ghost predicate Done(go: bool, t: Turn, data: string, p: nat, total: seq<Atom>)
      reads this
      requires p < |data|
    {
      if go then !Ended(t) && f == t.f && Told(data, p + 1, total + t.atoms) && NreadLegal()
      else Ended(t) && f.errno == t.f.errno && (t.f.errno.OK? ==> f == t.f && Atoms(said) == total + t.atoms)
    }

    /** CALLBACK_NOTIFY */
    method Notify(n: Notice, ghost total: seq<Atom>)
      requires f.errno.OK? && Atoms(said) == total
      modifies this`said
      ensures Atoms(said) == total + [Note(n)]
    {
      assert f.errno.OK?;
      AtomsSnoc(said, Notified(n));
      said := said + [Notified(n)];
    }

    /** CALLBACK_DATA, of the bytes up to `end`. */
    method CallbackData(kind: DataKind, data: string, end: nat, ghost total: seq<Atom>)
      requires f.errno.OK? && end <= |data| && Only(marks, kind, end) && Atoms(said) + Pending(marks, data, end) == total
      modifies this`said, this`marks
      ensures Atoms(said) == total && marks == NO_MARKS
    {
      assert f.errno.OK?;
      PendingOnly(marks, data, end, kind);
      ghost var before := marks;
      if Get(marks, kind).Some? {
        var report := Data(kind, data[Get(marks, kind).value..end]);
        AtomsSnoc(said, report);
        said := said + [report];
        marks := Set(marks, kind, None);
      }
      OnlyCleared(before, marks, kind, end);
    }

    /** MARK */
    method Mark(kind: DataKind, p: nat)
      modifies this`marks
      ensures marks == if Get(old(marks), kind).Some? then old(marks) else Set(old(marks), kind, Some(p))
    {
      if Get(marks, kind) == None {
        marks := Set(marks, kind, Some(p));
      }
    }

    /** Nothing is waiting, and nothing will be: the byte only changes the fields. */
    ghost predicate Clear(total: seq<Atom>)
      reads this
    {
      marks == NO_MARKS && Atoms(said) == total
    }

    // ---------- quiet states ----------

    method QuietStep(data: string, p: nat, ghost total: seq<Atom>) returns (go: bool)
      requires p < |data| && Legal(f) && IsQuiet(f.state) && Told(data, p, total)
      requires f.state.ChunkSizeStart? ==> nread == 1
      modifies this`f
      ensures Done(go, Next(old(f), data[p]), data, p, total)
    {
      NothingWaiting(marks, f.state, p);
      assert f.state.ChunkSizeStart? ==> nread == 1;
      assert ChunkState(f.state) ==> f.flags.chunked;
      QuietSilent(f, data[p]);
      f := Quiet(f, data[p]);
      assert total + [] == total;
      return f.errno.OK?;
    }

    // ---------- start of a message ----------

    method StartReqStep(data: string, p: nat, ghost total: seq<Atom>) returns (go: bool)
      requires p < |data| && f.errno.OK? && f.state.StartReq? && Clear(total)
      modifies this`f, this`said
      ensures Done(go, StartReqTurn(old(f), data[p]), data, p, total)
    {
      var ch := data[p];
      assert total + [] == total;
      if ch == CR || ch == LF {
        return true;
      }
      f := Fresh(f);
      if !IsAlpha(ch) || FirstMethod(ch) == None {
        f := Fail(f, INVALID_METHOD);
        return false;
      }
      f := f.(verb := FirstMethod(ch).value, index := 1, state := ReqMethod);
      Notify(MessageBegin, total);
      return true;
    }

    method StartResStep(data: string, p: nat, ghost total: seq<Atom>) returns (go: bool)
      requires p < |data| && f.errno.OK? && f.state.StartRes? && Clear(total)
      modifies this`f, this`said
      ensures Done(go, StartResTurn(old(f), data[p]), data, p, total)
    {
      var ch := data[p];
      assert total + [] == total;
      f := Fresh(f);
      if ch == 'H' {
        f := Goto(f, ResH);
      } else if ch != CR && ch != LF {
        f := Fail(f, INVALID_CONSTANT);
        return false;
      }
      Notify(MessageBegin, total);
      return true;
    }

    method StartBothStep(data: string, p: nat, ghost total: seq<Atom>) returns (go: bool)
      requires p < |data| && f.errno.OK? && f.state.StartReqOrRes? && Clear(total)
      modifies this`f, this`said
      ensures Done(go, StartBothTurn(old(f), data[p]), data, p, total)
    {
      var ch := data[p];
      assert total + [] == total;
      if ch == CR || ch == LF {
        return true;
      }
      f := Fresh(f);
      if ch == 'H' {
        f := Goto(f, ResOrRespH);
        Notify(MessageBegin, total);
        return true;
      }
      f := Goto(f.(kind := REQUEST), StartReq);
      go := StartReqStep(data, p, total);
    }

    // ---------- status line and URL ----------

    /** A byte of data: mark it, unless there is a mark already. */
    method DataByte(kind: DataKind, f': Fields, data: string, p: nat, ghost total: seq<Atom>)
      requires p < |data| && f'.errno.OK? && Waits(f'.state, kind) && !f'.state.ChunkSizeStart?
      requires Only(marks, kind, p) && Atoms(said) + Pending(marks, data, p) == total
      modifies this`f, this`marks
      ensures f == f' && Told(data, p + 1, total + [Byte(kind, data[p])])
    {
      OneByte(kind, data, p);
      DataBytes(kind, f', data, p, p + 1, total);
    }

    method StatusStep(data: string, p: nat, ghost total: seq<Atom>) returns (go: bool)
      requires p < |data| && Legal(f) && (f.state.ResStatusStart? || f.state.ResStatus?) && Told(data, p, total)
      modifies this`f, this`said, this`marks
      ensures Done(go, StatusTurn(old(f), data[p]), data, p, total)
    {
      var ch := data[p];
      assert total + [] == total;
      StatusOnly(marks, f.state, p);
      if ch == CR || ch == LF {
        f := Goto(f, if ch == CR then ResLineAlmostDone else HeaderFieldStart);
        CallbackData(STATUS, data, p, total);
      } else {
        DataByte(STATUS, if f.state.ResStatusStart? then f.(state := ResStatus, index := 0) else f, data, p, total);
      }
      return true;
    }

    method UrlStep(data: string, p: nat, ghost total: seq<Atom>) returns (go: bool)
      requires p < |data| && Legal(f) && UrlState(f.state) && Told(data, p, total)
      modifies this`f, this`said, this`marks
      ensures Done(go, UrlTurn(old(f), data[p]), data, p, total)
    {
      var ch := data[p];
      assert total + [] == total;
      OnlyWaiting(marks, f.state, URL, p);
      if ch == ' ' || ch == CR || ch == LF {
        if UrlOpen(f.state) {
          f := Fail(f, INVALID_URL);
          return false;
        }
        if ch == ' ' {
          f := Goto(f, ReqHttpStart);
        } else {
          f := f.(major := 0, minor := 9, state := if ch == CR then ReqLineAlmostDone else HeaderFieldStart);
        }
        CallbackData(URL, data, p, total);
        return true;
      }
      var next := ParseUrlChar(f.state, ch);
      if next.Dead? {
        f := Fail(Goto(f, Dead), INVALID_URL);
        return false;
      }
      DataByte(URL, Goto(f, next), data, p, total);
      return true;
    }

    method BeforeUrlStep(data: string, p: nat, ghost total: seq<Atom>) returns (go: bool)
      requires p < |data| && Legal(f) && f.state.ReqSpacesBeforeUrl? && Clear(total)
      modifies this`f, this`said, this`marks
      ensures Done(go, BeforeUrlTurn(old(f), data[p]), data, p, total)
    {
      var ch := data[p];
      assert total + [] == total;
      if ch == ' ' {
        return true;
      }
      var next := ParseUrlChar(if f.verb.CONNECT? then ReqServerStart else f.state, ch);
      if next.Dead? {
        f := Fail(Goto(f, Dead), INVALID_URL);
        return false;
      }
      DataByte(URL, Goto(f, next), data, p, total);
      return true;
    }

    // ---------- the end of the header ----------

    method MessageDoneStep(data: string, p: nat, ghost total: seq<Atom>) returns (go: bool)
      requires p < |data| && f.errno.OK? && Clear(total)
      modifies this`f, this`said
      ensures Done(go, MessageDoneTurn(old(f)), data, p, total) && f.errno.OK?
    {
      f := Goto(f, NewMessage(f));
      Notify(MessageComplete, total);
      return !f.upgrade;
    }

    /** s_headers_done */
    method BodyStep(data: string, p: nat, ghost total: seq<Atom>) returns (go: bool)
      requires p < |data| && f.errno.OK? && Clear(total)
      modifies this`f, this`said, this`nread
      ensures Done(go, BodyTurn(old(f)), data, p, total)
      ensures nread == 0
    {
      nread := 0;
      assert total + [] == total;
      if f.upgrade && (f.verb.CONNECT? || f.flags.skipBody || !HasBody(f)) {
        f := Goto(f, NewMessage(f));
        Notify(MessageComplete, total);
        return false;
      }
      if f.flags.skipBody {
        f := Goto(f, NewMessage(f));
        Notify(MessageComplete, total);
      } else if f.flags.chunked {
        f := Goto(f, ChunkSizeStart);
      } else if f.contentLength == 0 {
        f := Goto(f, NewMessage(f));
        Notify(MessageComplete, total);
      } else if f.contentLength != ULLONG_MAX {
        f := Goto(f, BodyIdentity);
      } else if !NeedsEof(f) {
        f := Goto(f, NewMessage(f));
        Notify(MessageComplete, total);
      } else {
        f := Goto(f, BodyIdentityEof);
      }
      return true;
    }

    /** s_headers_almost_done; on_headers_complete returns 0. */
    method HeadersAlmostDoneStep(data: string, p: nat, ghost total: seq<Atom>) returns (go: bool)
      requires p < |data| && f.errno.OK? && Clear(total)
      modifies this`f, this`said, this`nread
      ensures Done(go, HeadersAlmostDoneTurn(old(f), data[p]), data, p, total)
      ensures nread <= old(nread) && (go && HeaderTold(HeadersAlmostDoneTurn(old(f), data[p])) ==> nread == 0)
    {
      var ch := data[p];
      if ch != LF {
        f := Fail(f, STRICT);
        return false;
      }
      if f.flags.trailing {
        Notify(ChunkComplete, total);
        NoteFirst(total, ChunkComplete, MessageDoneTurn(f));
        go := MessageDoneStep(data, p, total + [Note(ChunkComplete)]);
        return;
      }
      if f.flags.chunked && f.flags.contentLength {
        f := Fail(f, UNEXPECTED_CONTENT_LENGTH);
        return false;
      }
      f := f.(upgrade := Upgraded(f));
      Notify(HeadersComplete, total);
      NoteFirst(total, HeadersComplete, BodyTurn(f));
      go := BodyStep(data, p, total + [Note(HeadersComplete)]);
    }

    // ---------- header fields ----------

    method FieldStartStep(data: string, p: nat, ghost total: seq<Atom>) returns (go: bool)
      requires p < |data| && f.errno.OK? && Clear(total)
      modifies this`f, this`said, this`marks, this`nread
      ensures Done(go, FieldStartTurn(old(f), data[p]), data, p, total)
      ensures nread <= old(nread) && (go && HeaderTold(FieldStartTurn(old(f), data[p])) ==> nread == 0)
    {
      var ch := data[p];
      assert total + [] == total;
      if ch == CR {
        f := Goto(f, HeadersAlmostDone);
        return true;
      }
      if ch == LF {
        f := Goto(f, HeadersAlmostDone);
        go := HeadersAlmostDoneStep(data, p, total);
        return;
      }
      var c := Token(ch);
      if c == None {
        f := Fail(f, INVALID_HEADER_TOKEN);
        return false;
      }
      DataByte(FIELD, FieldFirst(f, c.value), data, p, total);
      return true;
    }

    // ---------- header values ----------

    /** s_header_value_start, and s_header_value_discard_ws where it falls through. */
    method ValueStartStep(data: string, p: nat, ghost total: seq<Atom>) returns (go: bool)
      requires p < |data| && f.errno.OK? && Clear(total)
      modifies this`f, this`marks
      ensures Done(go, Gives(ValueFirst(old(f), data[p]), VALUE, data[p]), data, p, total)
    {
      var g := ValueFirst(f, data[p]);
      if !g.errno.OK? {
        f := g;
        return false;
      }
      DataByte(VALUE, g, data, p, total);
      return true;
    }

    method DiscardWsStep(data: string, p: nat, ghost total: seq<Atom>) returns (go: bool)
      requires p < |data| && f.errno.OK? && f.state.HeaderValueDiscardWs? && Clear(total)
      modifies this`f, this`marks
      ensures Done(go, DiscardWsTurn(old(f), data[p]), data, p, total)
    {
      var ch := data[p];
      assert total + [] == total;
      if ch == ' ' || ch == '\t' {
        return true;
      }
      if ch == CR {
        f := Goto(f, HeaderValueDiscardWsAlmostDone);
        return true;
      }
      if ch == LF {
        f := Goto(f, HeaderValueDiscardLws);
        return true;
      }
      go := ValueStartStep(data, p, total);
    }

    method LwsStep(data: string, p: nat, ghost total: seq<Atom>) returns (go: bool)
      requires p < |data| && f.errno.OK? && f.state.HeaderValueLws? && Clear(total)
      modifies this`f, this`said, this`marks, this`nread
      ensures Done(go, LwsTurn(old(f), data[p]), data, p, total)
      ensures nread <= old(nread) && (go && HeaderTold(LwsTurn(old(f), data[p])) ==> nread == 0)
    {
      var ch := data[p];
      if ch == ' ' || ch == '\t' {
        go := ValueStartStep(data, p, total);
        return;
      }
      f := Goto(Concluded(f), HeaderFieldStart);
      go := FieldStartStep(data, p, total);
    }

    /** An empty value is told to the callback as such. */
    method DiscardLwsStep(data: string, p: nat, ghost total: seq<Atom>) returns (go: bool)
      requires p < |data| && f.errno.OK? && f.state.HeaderValueDiscardLws? && Clear(total)
      modifies this`f, this`said, this`marks, this`nread
      ensures Done(go, DiscardLwsTurn(old(f), data[p]), data, p, total)
      ensures nread <= old(nread) && (go && HeaderTold(DiscardLwsTurn(old(f), data[p])) ==> nread == 0)
    {
      var ch := data[p];
      assert total + [] == total;
      if ch == ' ' || ch == '\t' {
        f := Goto(f, HeaderValueDiscardWs);
        return true;
      }
      f := Goto(Concluded(f), HeaderFieldStart);
      Mark(VALUE, p);
      OnlyMarked(VALUE, p, data, total);
      CallbackData(VALUE, data, p, total);
      go := FieldStartStep(data, p, total);
    }

    // ---------- chunks ----------

    method ChunkSizeAlmostDoneStep(data: string, p: nat, ghost total: seq<Atom>) returns (go: bool)
      requires p < |data| && Legal(f) && f.state.ChunkSizeAlmostDone? && Clear(total)
      modifies this`f, this`said, this`nread
      ensures Done(go, ChunkSizeAlmostDoneTurn(old(f), data[p]), data, p, total)
      ensures nread == if go then 0 else old(nread)
    {
      assert f.flags.chunked;
      if data[p] != LF {
        f := Fail(f, STRICT);
        return false;
      }
      nread := 0;
      if f.contentLength == 0 {
        f := f.(flags := f.flags.(trailing := true), state := HeaderFieldStart);
      } else {
        f := Goto(f, ChunkData);
      }
      Notify(ChunkHeader, total);
      return true;
    }

    method ChunkDataAlmostDoneStep(data: string, p: nat, ghost total: seq<Atom>) returns (go: bool)
      requires p < |data| && Legal(f) && f.state.ChunkDataAlmostDone? && Told(data, p, total)
      modifies this`f, this`said, this`marks
      ensures Done(go, Next(old(f), data[p]), data, p, total)
    {
      assert f.flags.chunked && f.contentLength == 0;
      assert total + [] == total;
      OnlyWaiting(marks, f.state, BODY, p);
      if data[p] != CR {
        f := Fail(f, STRICT);
        return false;
      }
      f := Goto(f, ChunkDataDone);
      CallbackData(BODY, data, p, total);
      return true;
    }

    method ChunkDataDoneStep(data: string, p: nat, ghost total: seq<Atom>) returns (go: bool)
      requires p < |data| && Legal(f) && f.state.ChunkDataDone? && Clear(total)
      modifies this`f, this`said, this`nread
      ensures Done(go, ChunkDataDoneTurn(old(f), data[p]), data, p, total)
      ensures nread == if go then 0 else old(nread)
    {
      assert f.flags.chunked;
      if data[p] != LF {
        f := Fail(f, STRICT);
        return false;
      }
      nread := 0;
      f := Goto(f, ChunkSizeStart);
      Notify(ChunkComplete, total);
      return true;
    }

    // ---------- one byte ----------

    /** The switch of http_parser_execute, for the states that take one byte at a time. */
    method Step(data: string, p: nat, ghost total: seq<Atom>) returns (go: bool)
      requires p < |data| && Legal(f) && !Bulk(f.state) && Told(data, p, total)
      requires f.state.ChunkSizeStart? ==> nread == 1
      modifies this`f, this`said, this`marks, this`nread
      ensures Done(go, Next(old(f), data[p]), data, p, total)
      ensures nread <= old(nread) && (go && StartsOver(old(f), Next(old(f), data[p])) ==> nread == 0)
    {
      if IsQuiet(f.state) {
        go := QuietStep(data, p, total);
      } else if UrlState(f.state) {
        go := UrlStep(data, p, total);
      } else if f.state.ResStatusStart? || f.state.ResStatus? {
        go := StatusStep(data, p, total);
      } else if f.state.ChunkDataAlmostDone? {
        go := ChunkDataAlmostDoneStep(data, p, total);
      } else {
        NothingWaiting(marks, f.state, p);
        assert Atoms(said) + [] == Atoms(said);
        go := ClearStep(data, p, total);
      }
    }

    method ClearStep(data: string, p: nat, ghost total: seq<Atom>) returns (go: bool)
      requires p < |data| && Legal(f) && !Bulk(f.state) && !IsQuiet(f.state) && !UrlState(f.state)
      requires !f.state.ResStatusStart? && !f.state.ResStatus? && !f.state.ChunkDataAlmostDone? && Clear(total)
      modifies this`f, this`said, this`marks, this`nread
      ensures Done(go, Next(old(f), data[p]), data, p, total)
      ensures nread <= old(nread) && (go && StartsOver(old(f), Next(old(f), data[p])) ==> nread == 0)
    {
      var s := f.state;
      if s.StartReqOrRes? {
        go := StartBothStep(data, p, total);
      } else if s.StartRes? {
        go := StartResStep(data, p, total);
      } else if s.StartReq? {
        go := StartReqStep(data, p, total);
      } else if s.ReqSpacesBeforeUrl? {
        go := BeforeUrlStep(data, p, total);
      } else if s.HeaderFieldStart? {
        go := FieldStartStep(data, p, total);
      } else if s.HeaderValueDiscardWs? {
        go := DiscardWsStep(data, p, total);
      } else if s.HeaderValueDiscardLws? {
        go := DiscardLwsStep(data, p, total);
      } else if s.HeaderValueLws? {
        go := LwsStep(data, p, total);
      } else if s.HeadersAlmostDone? {
        go := HeadersAlmostDoneStep(data, p, total);
      } else if s.ChunkSizeAlmostDone? {
        go := ChunkSizeAlmostDoneStep(data, p, total);
      } else {
        assert s.ChunkDataDone?;
        go := ChunkDataDoneStep(data, p, total);
      }
    }

    // ---------- states that look ahead ----------

    /** The bytes from `p` to `q` were treated as the reference does; or the run ended there: the rest is in another protocol,
        the header is too long, or the byte at `q` was refused. */
    ghost predicate Ran(go: bool, f0: Fields, data: string, p: nat, q: nat, total: seq<Atom>)
      reads this
      requires Legal(f0) && p <= q <= |data|
    {
      var t := Fold(f0, data[p..q]);
      if go then !Ended(t) && f == t.f && Told(data, q, total + t.atoms) && NreadLegal()
      else
        || (f.errno.OK? && t.stop && f == t.f && Atoms(said) == total + t.atoms)
        || TooLong()
        || (q < |data| && Refused(f0, data[p..q], data[q], f.errno))
    }

    /** The header size limit was really passed. */
    ghost predicate TooLong()
      reads this
    {
      f.errno.HEADER_OVERFLOW? && nread > HTTP_MAX_HEADER_SIZE
    }

    /** Input from here on that the header size limit cannot stop. */
    ghost predicate Affordable(rest: string)
      reads this
      requires Legal(f)
    {
      Tally(f, nread, rest).Some?
    }

    /** The first byte of the run has been counted. */
    ghost predicate Granted(b: Budget, data: string, p: nat)
      reads this
      requires Legal(f) && p < |data|
    {
      b.can ==> nread == b.n + 1 && Tally(f, b.n, data[p..] + b.later).Some?
    }

    /** The run up to `q` has been counted. */
    ghost predicate RunGranted(b: Budget, data: string, q: nat)
      reads this
      requires Legal(f) && q <= |data|
    {
      b.can ==> nread <= (if q < |data| then b.n + 1 else b.n) && Tally(f, b.n, data[q..] + b.later).Some?
    }

    /** COUNT_HEADER_SIZE */
    method CountHeaderSize(n: nat) returns (ok: bool)
      modifies this`nread, this`f
      ensures nread == old(nread) + n && ok == (nread <= HTTP_MAX_HEADER_SIZE)
      ensures f == if ok then old(f) else Fail(old(f), HEADER_OVERFLOW)
    {
      nread := nread + n;
      if nread > HTTP_MAX_HEADER_SIZE {
        f := Fail(f, HEADER_OVERFLOW);
        return false;
      }
      return true;
    }

    /** Bytes of data up to `q`: mark them, unless there is a mark already. */
    method DataBytes(kind: DataKind, f': Fields, data: string, p: nat, q: nat, ghost total: seq<Atom>)
      requires p <= q <= |data| && f'.errno.OK? && Waits(f'.state, kind) && !f'.state.ChunkSizeStart?
      requires Only(marks, kind, p) && Atoms(said) + Pending(marks, data, p) == total
      modifies this`f, this`marks
      ensures f == f' && Told(data, q, total + Bytes(kind, data[p..q])) && Only(marks, kind, q)
    {
      PendingMore(marks, data, p, q, kind);
      ghost var before, more := Pending(marks, data, p), Bytes(kind, data[p..q]);
      Mark(kind, p);
      f := f';
      OnlyLegal(marks, f.state, kind, q);
      Joined(Atoms(said), before, more);
    }

    /** s_header_field: names are matched up to the end of the token or of the input. */
    method FieldRun(data: string, p: nat, ghost total: seq<Atom>, ghost b: Budget) returns (go: bool, q: nat)
      requires p < |data| && Legal(f) && f.state.HeaderField? && Told(data, p, total) && Granted(b, data, p)
      modifies this`f, this`said, this`marks, this`nread
      ensures p <= q <= |data| && Ran(go, old(f), data, p, q, total)
      ensures go ==> p < q && Legal(f)
      ensures nread <= old(nread) + |data| - p
      ensures go ==> nread <= old(nread) + q - p - (if q < |data| then 1 else 0)
      ensures b.can ==> go && Affordable(data[q..] + b.later)
    {
      OnlyWaiting(marks, f.state, FIELD, p);
      ghost var f0 := f;
      q := MatchField(data, p);
      ghost var n := b.n;
      if b.can {
        n := TextFits(f0, f, b, data, p, q, FIELD);
      }
      var ok := CountHeaderSize(q - p);
      if !ok {
        return false, q;
      }
      go, q := FieldTail(data, p, q, total, f0, b.(n := n));
    }

    /** Mark the name, and end it if something else follows. */
    method FieldTail(data: string, p: nat, q: nat, ghost total: seq<Atom>, ghost f0: Fields, ghost b: Budget) returns (go: bool, r: nat)
      requires p <= q <= |data| && p < |data| && Legal(f0) && Legal(f) && f.state.HeaderField? && (q < |data| ==> Token(data[q]) == None)
      requires Fold(f0, data[p..q]) == Turn(f, Bytes(FIELD, data[p..q]), false)
      requires Only(marks, FIELD, p) && Atoms(said) + Pending(marks, data, p) == total && RunGranted(b, data, q)
      modifies this`f, this`said, this`marks
      ensures q <= r <= |data| && Ran(go, f0, data, p, r, total)
      ensures go ==> r == (if q < |data| then q + 1 else q) && Legal(f)
      ensures b.can ==> go && Affordable(data[r..] + b.later)
    {
      if b.can {
        FieldEndFits(f, nread, b, data, q);
      }
      DataBytes(FIELD, f, data, p, q, total);
      if q == |data| {
        return true, q;
      }
      go := FieldStop(data, p, q, total, f0);
      r := if go then q + 1 else q;
    }

    /** The name has been read up to `q`; there it ends. */
    method FieldStop(data: string, p: nat, q: nat, ghost total: seq<Atom>, ghost f0: Fields) returns (go: bool)
      requires p <= q < |data| && Legal(f0) && Legal(f) && f.state.HeaderField? && Token(data[q]) == None
      requires Fold(f0, data[p..q]) == Turn(f, Bytes(FIELD, data[p..q]), false)
      requires Only(marks, FIELD, q) && Atoms(said) + Pending(marks, data, q) == total + Bytes(FIELD, data[p..q])
      modifies this`f, this`said, this`marks
      ensures go == (data[q] == ':') && (go ==> f == Goto(old(f), HeaderValueDiscardWs) && Legal(f))
      ensures Ran(go, f0, data, p, if go then q + 1 else q, total)
    {
      FieldStops(f0, f, data, p, q);
      go := data[q] == ':';
      if go {
        f := Goto(f, HeaderValueDiscardWs);
        CallbackData(FIELD, data, q, total + Bytes(FIELD, data[p..q]));
        assert total + Bytes(FIELD, data[p..q]) + [] == total + Bytes(FIELD, data[p..q]);
      } else {
        f := Fail(f, INVALID_HEADER_TOKEN);
      }
    }

    /** The loop of s_header_field. */
    method MatchField(data: string, p: nat) returns (q: nat)
      requires p < |data| && Legal(f) && f.state.HeaderField?
      modifies this`f
      ensures p <= q <= |data| && (q < |data| ==> Token(data[q]) == None)
      ensures Legal(f) && f.state.HeaderField? && Fold(old(f), data[p..q]) == Turn(f, Bytes(FIELD, data[p..q]), false)
      ensures forall i :: p <= i < q ==> Token(data[i]).Some?
    {
      ghost var f0 := f;
      q := p;
      assert data[p..p] == "";
      while q < |data| && Token(data[q]).Some?
        invariant p <= q <= |data| && Legal(f) && f.state.HeaderField?
        invariant Fold(f0, data[p..q]) == Turn(f, Bytes(FIELD, data[p..q]), false)
        invariant forall i :: p <= i < q ==> Token(data[i]).Some?
      {
        assert FieldLegal(f.headerState);
        FieldCharLegal(f, data[q], Token(data[q]).value);
        RunMore(f0, f, data, p, q, FIELD);
        f := FieldChar(f, data[q], Token(data[q]).value);
        q := q + 1;
      }
    }

    // ---------- s_header_value ----------

    /** The first CR or LF from `p` on, as memchr finds it; the end of the input if there is none within the limit. */
    method LineEnd(data: string, p: nat) returns (r: nat)
      requires p < |data|
      ensures p <= r <= |data|
      ensures forall i :: p <= i < r && i < p + HTTP_MAX_HEADER_SIZE ==> data[i] != CR && data[i] != LF
      ensures r < |data| ==> r < p + HTTP_MAX_HEADER_SIZE && (data[r] == CR || data[r] == LF)
    {
      var limit := if |data| - p < HTTP_MAX_HEADER_SIZE then |data| - p else HTTP_MAX_HEADER_SIZE;
      var cr := Memchr(data, p, CR, limit);
      var lf := Memchr(data, p, LF, limit);
      if cr.Some? {
        return if lf.Some? && cr.value >= lf.value then lf.value else cr.value;
      }
      return if lf.Some? then lf.value else |data|;
    }

    method Memchr(data: string, p: nat, c: char, limit: nat) returns (r: Option<nat>)
      requires p + limit <= |data|
      ensures r.Some? ==> p <= r.value < p + limit && data[r.value] == c && forall i :: p <= i < r.value ==> data[i] != c
      ensures r.None? ==> forall i :: p <= i < p + limit ==> data[i] != c
    {
      var q := p;
      while q < p + limit
        invariant p <= q <= p + limit && forall i :: p <= i < q ==> data[i] != c
      {
        if data[q] == c {
          return Some(q);
        }
        q := q + 1;
      }
      return None;
    }

    /** The loop of s_header_value: up to the end of the line or of the input, or a character that is refused. The search for
        the end of the line can be given up at the limit; then only the bytes up to `seen` were looked at. */
    method MatchValue(data: string, p: nat) returns (q: nat, ok: bool, ghost seen: nat)
      requires p < |data| && Legal(f) && f.state.HeaderValue?
      modifies this`f
      ensures p <= seen <= q <= |data| && (seen < q ==> ok && q == |data| && seen >= p + HTTP_MAX_HEADER_SIZE)
      ensures ok ==> Legal(f) && f.state.HeaderValue? && Fold(old(f), data[p..seen]) == Turn(f, Bytes(VALUE, data[p..seen]), false)
      ensures ok && q < |data| ==> data[q] == CR || data[q] == LF
      ensures forall i :: p <= i < seen ==> data[i] != CR && data[i] != LF
      ensures !ok ==> q < |data| && Refused(old(f), data[p..q], data[q], f.errno)
    {
      ghost var f0 := f;
      q, ok, seen := p, true, p;
      assert data[p..p] == "";
      while q < |data| && data[q] != CR && data[q] != LF
        invariant p <= seen <= q <= |data| && ok && Legal(f) && f.state.HeaderValue?
        invariant seen < q ==> q == |data| && seen >= p + HTTP_MAX_HEADER_SIZE
        invariant Fold(f0, data[p..seen]) == Turn(f, Bytes(VALUE, data[p..seen]), false)
        invariant forall i :: p <= i < seen ==> data[i] != CR && data[i] != LF
        decreases |data| - q
      {
        assert !f.headerState.Connection? && !f.headerState.TransferEncoding?;
        if !f.lenient && !IsHeaderChar(data[q]) {
          f := Fail(f, INVALID_HEADER_TOKEN);
          return q, false, q;
        }
        if f.headerState.General? {
          q, seen := SkipValue(data, p, q, f0);
        } else {
          ok := ValueByte(data, p, q, f0);
          if !ok {
            return q, false, q;
          }
          q := q + 1;
          seen := q;
        }
      }
    }

    /** One byte of a value that is compared with something. */
    method ValueByte(data: string, p: nat, q: nat, ghost f0: Fields) returns (ok: bool)
      requires p <= q < |data| && Legal(f0) && Legal(f) && f.state.HeaderValue? && !f.headerState.General?
      requires !f.headerState.Connection? && !f.headerState.TransferEncoding?
      requires Fold(f0, data[p..q]) == Turn(f, Bytes(VALUE, data[p..q]), false)
      requires data[q] != CR && data[q] != LF && (f.lenient || IsHeaderChar(data[q]))
      modifies this`f
      ensures f.errno.OK? == ok
      ensures ok ==> Legal(f) && f.state.HeaderValue? && Fold(f0, data[p..q + 1]) == Turn(f, Bytes(VALUE, data[p..q + 1]), false)
      ensures !ok ==> Refused(f0, data[p..q], data[q], f.errno)
    {
      ValueCharRun(f0, f, data, p, q);
      f := ValueChar(f, data[q]);
      ok := f.errno.OK?;
    }

    /** An ordinary value: go to the end of the line at once. */
    method SkipValue(data: string, p: nat, q: nat, ghost f0: Fields) returns (r: nat, ghost seen: nat)
      requires p <= q < |data| && Legal(f0) && Legal(f) && f.state.HeaderValue? && f.headerState.General?
      requires Fold(f0, data[p..q]) == Turn(f, Bytes(VALUE, data[p..q]), false)
      requires data[q] != CR && data[q] != LF
      ensures q < seen <= r <= |data| && (seen < r ==> r == |data| && seen >= p + HTTP_MAX_HEADER_SIZE)
      ensures Fold(f0, data[p..seen]) == Turn(f, Bytes(VALUE, data[p..seen]), false)
      ensures forall i :: q <= i < seen ==> data[i] != CR && data[i] != LF
    {
      r := LineEnd(data, q);
      seen := if r == |data| && |data| - q > HTTP_MAX_HEADER_SIZE then q + HTTP_MAX_HEADER_SIZE else r;
      GeneralRun(f0, f, data, p, q, seen);
    }

    method ValueRun(data: string, p: nat, ghost total: seq<Atom>, ghost b: Budget) returns (go: bool, q: nat)
      requires p < |data| && Legal(f) && f.state.HeaderValue? && Told(data, p, total) && Granted(b, data, p)
      modifies this`f, this`said, this`marks, this`nread
      ensures p <= q <= |data| && Ran(go, old(f), data, p, q, total)
      ensures go ==> p < q && Legal(f)
      ensures nread <= old(nread) + |data| - p
      ensures go ==> nread <= old(nread) + q - p - (if q < |data| then 1 else 0)
      ensures b.can ==> go && Affordable(data[q..] + b.later)
    {
      OnlyWaiting(marks, f.state, VALUE, p);
      ghost var f0 := f;
      ghost var seen;
      var ok;
      q, ok, seen := MatchValue(data, p);
      if !ok {
        if b.can {
          NotRefused(f0, b, data, p, q, f.errno);
          assert false;
        }
        return false, q;
      }
      go, q := ValueCount(data, p, q, total, f0, b, seen);
    }

    /** The value has been read up to `q`: count it. */
    method ValueCount(data: string, p: nat, q: nat, ghost total: seq<Atom>, ghost f0: Fields, ghost b: Budget, ghost seen: nat)
      returns (go: bool, r: nat)
      requires p <= seen <= q <= |data| && p < |data| && (seen < q ==> q == |data| && seen >= p + HTTP_MAX_HEADER_SIZE)
      requires Legal(f0) && f0.state.HeaderValue? && Legal(f) && f.state.HeaderValue? && (q < |data| ==> data[q] == CR || data[q] == LF)
      requires Fold(f0, data[p..seen]) == Turn(f, Bytes(VALUE, data[p..seen]), false)
      requires forall i :: p <= i < seen ==> data[i] != CR && data[i] != LF
      requires Only(marks, VALUE, p) && Atoms(said) + Pending(marks, data, p) == total
      requires b.can ==> nread == b.n + 1 && Tally(f0, b.n, data[p..] + b.later).Some?
      modifies this`f, this`said, this`marks, this`nread
      ensures q <= r <= |data| && Ran(go, f0, data, p, r, total)
      ensures go ==> p < r && Legal(f)
      ensures nread == old(nread) + q - p && (go ==> r == if q < |data| then q + 1 else q)
      ensures b.can ==> go && Affordable(data[r..] + b.later)
    {
      ghost var n := b.n;
      if b.can {
        n := TextFits(f0, f, b, data, p, seen, VALUE);
      }
      var counted := CountHeaderSize(q - p);
      if !counted {
        return false, q;
      }
      assert seen == q;
      r := ValueTail(data, p, q, total, f0, b.(n := n));
      go := true;
    }

    /** Mark the value, and end it if its line has ended. */
    method ValueTail(data: string, p: nat, q: nat, ghost total: seq<Atom>, ghost f0: Fields, ghost b: Budget) returns (r: nat)
      requires p <= q <= |data| && p < |data| && Legal(f0) && Legal(f) && f.state.HeaderValue?
      requires q < |data| ==> data[q] == CR || data[q] == LF
      requires Fold(f0, data[p..q]) == Turn(f, Bytes(VALUE, data[p..q]), false)
      requires Only(marks, VALUE, p) && Atoms(said) + Pending(marks, data, p) == total && RunGranted(b, data, q)
      modifies this`f, this`said, this`marks
      ensures r == if q < |data| then q + 1 else q
      ensures Ran(true, f0, data, p, r, total) && Legal(f)
      ensures b.can ==> Affordable(data[r..] + b.later)
    {
      if b.can {
        ValueEndFits(f, nread, b, data, q);
      }
      ghost var now := total + Bytes(VALUE, data[p..q]);
      DataBytes(VALUE, f, data, p, q, total);
      if q == |data| {
        return q;
      }
      ValueEndFold(f0, f, data, p, q);
      ValueEnd(data, q, now);
      return q + 1;
    }

    /** The end of the line. A LF takes the step of s_header_almost_done with it. */
    method ValueEnd(data: string, p: nat, ghost total: seq<Atom>)
      requires p < |data| && Legal(f) && f.state.HeaderValue? && (data[p] == CR || data[p] == LF)
      requires Only(marks, VALUE, p) && Atoms(said) + Pending(marks, data, p) == total
      modifies this`f, this`said, this`marks
      ensures f == LineEnded(old(f), data[p]) && Told(data, p + 1, total)
    {
      f := Goto(f, HeaderAlmostDone);
      CallbackData(VALUE, data, p, total);
      if data[p] == LF {
        f := Goto(f, HeaderValueLws);
      }
      assert total + [] == total;
    }

    /** s_body_identity: as much as there is of the body. */
    method IdentityRun(data: string, p: nat, ghost total: seq<Atom>) returns (go: bool, q: nat)
      requires p < |data| && Legal(f) && f.state.BodyIdentity? && Told(data, p, total)
      modifies this`f, this`said, this`marks
      ensures p < q <= |data| && Ran(go, old(f), data, p, q, total)
      ensures q - p <= old(f.contentLength) && f.errno.OK?
    {
      OnlyWaiting(marks, f.state, BODY, p);
      assert f.contentLength != 0 && f.contentLength != ULLONG_MAX;
      var toRead := if f.contentLength < |data| - p then f.contentLength else |data| - p;
      q := p + toRead;
      if f.contentLength == toRead {
        go := LastBytes(data, p, q, total);
      } else {
        IdentityFold(f, data[p..q]);
        DataBytes(BODY, f.(contentLength := f.contentLength - toRead), data, p, q, total);
        go := true;
      }
    }

    /** The last bytes of a body, and s_message_done. */
    method LastBytes(data: string, p: nat, q: nat, ghost total: seq<Atom>) returns (go: bool)
      requires p < q <= |data| && Legal(f) && f.state.BodyIdentity? && f.contentLength == q - p
      requires Only(marks, BODY, p) && Atoms(said) + Pending(marks, data, p) == total
      modifies this`f, this`said, this`marks
      ensures Ran(go, old(f), data, p, q, total) && f.errno.OK?
    {
      ghost var now := total + Bytes(BODY, data[p..q]);
      IdentityFold(f, data[p..q]);
      Joined(total, Bytes(BODY, data[p..q]), [Note(MessageComplete)]);
      DataBytes(BODY, f.(contentLength := 0), data, p, q, total);
      CallbackData(BODY, data, q, now);
      go := MessageDoneStep(data, q - 1, now);
    }

    /** s_body_identity_eof: everything there is. */
    method EofRun(data: string, p: nat, ghost total: seq<Atom>) returns (q: nat)
      requires p < |data| && Legal(f) && f.state.BodyIdentityEof? && Told(data, p, total)
      modifies this`f, this`marks
      ensures q == |data| && Ran(true, old(f), data, p, q, total)
    {
      OnlyWaiting(marks, f.state, BODY, p);
      q := |data|;
      SameFold(f, data[p..q], BODY);
      DataBytes(BODY, f, data, p, q, total);
    }

    /** s_chunk_data: as much as there is of the chunk. */
    method ChunkRun(data: string, p: nat, ghost total: seq<Atom>) returns (q: nat)
      requires p < |data| && Legal(f) && f.state.ChunkData? && Told(data, p, total)
      modifies this`f, this`marks
      ensures p < q <= |data| && Ran(true, old(f), data, p, q, total)
      ensures q - p <= old(f.contentLength)
    {
      OnlyWaiting(marks, f.state, BODY, p);
      assert f.flags.chunked;
      assert f.contentLength != 0 && f.contentLength != ULLONG_MAX;
      var toRead := if f.contentLength < |data| - p then f.contentLength else |data| - p;
      q := p + toRead;
      ChunkFold(f, data[p..q]);
      var g := f.(contentLength := f.contentLength - toRead);
      if g.contentLength == 0 {
        g := Goto(g, ChunkDataAlmostDone);
      }
      DataBytes(BODY, g, data, p, q, total);
    }

    // ---------- http_parser_execute ----------

    /** The states that take the data of a body. */
    method BodyRun(data: string, p: nat, ghost total: seq<Atom>, ghost b: Budget) returns (go: bool, q: nat)
      requires p < |data| && Legal(f) && Told(data, p, total) && (b.can ==> nread == b.n && Tally(f, b.n, data[p..] + b.later).Some?)
      requires f.state.BodyIdentity? || f.state.BodyIdentityEof? || f.state.ChunkData?
      modifies this`f, this`said, this`marks
      ensures p < q <= |data| && Ran(go, old(f), data, p, q, total) && (go ==> Legal(f))
      ensures b.can ==> go && Affordable(data[q..] + b.later)
    {
      ghost var f0 := f;
      go := true;
      if f.state.BodyIdentity? {
        go, q := IdentityRun(data, p, total);
      } else if f.state.BodyIdentityEof? {
        q := EofRun(data, p, total);
      } else {
        q := ChunkRun(data, p, total);
      }
      if go {
        FoldLegal(f0, data[p..q]);
      }
      if b.can {
        DataFits(f0, b, data, p, q);
      }
    }

    /** One turn of the main loop. */
    method Turn1(data: string, p: nat, ghost total: seq<Atom>, ghost later: string) returns (go: bool, q: nat)
      requires p < |data| && Legal(f) && NreadLegal() && Told(data, p, total)
      modifies this`f, this`said, this`marks, this`nread
      ensures p <= q <= |data| && Ran(go, old(f), data, p, q, total)
      ensures go ==> p < q && Legal(f)
      ensures nread <= old(nread) + |data| - p + 1
      ensures go ==> nread <= old(nread) + q - p + (if q == |data| then 1 else 0)
      ensures old(Affordable(data[p..] + later)) ==> go && Affordable(data[q..] + later)
    {
      ghost var b := Budget(Affordable(data[p..] + later), nread, later);
      if b.can {
        NextIsPaid(f, b, data, p);
      }
      if ParsingHeader(f.state) {
        var counted := CountHeaderSize(1);
        if !counted {
          return false, p;
        }
      }
      if Bulk(f.state) {
        go, q := BulkTurn(data, p, total, b);
      } else {
        go, q := StepTurn(data, p, total, b);
      }
    }

    /** The states that look ahead. */
    method BulkTurn(data: string, p: nat, ghost total: seq<Atom>, ghost b: Budget) returns (go: bool, q: nat)
      requires p < |data| && Legal(f) && Bulk(f.state) && Told(data, p, total) && NreadLegal()
      requires b.can ==> Tally(f, b.n, data[p..] + b.later).Some?
      requires nread == b.n + if ParsingHeader(f.state) then 1 else 0
      modifies this`f, this`said, this`marks, this`nread
      ensures p <= q <= |data| && Ran(go, old(f), data, p, q, total)
      ensures go ==> p < q && Legal(f)
      ensures b.can ==> go && Affordable(data[q..] + b.later)
      ensures nread <= old(nread) + |data| - p
      ensures go ==> nread <= old(nread) + q - p - (if q < |data| then 1 else 0)
    {
      if f.state.HeaderField? {
        go, q := FieldRun(data, p, total, b);
      } else if f.state.HeaderValue? {
        go, q := ValueRun(data, p, total, b);
      } else {
        go, q := BodyRun(data, p, total, b);
      }
    }

    method StepTurn(data: string, p: nat, ghost total: seq<Atom>, ghost b: Budget) returns (go: bool, q: nat)
      requires p < |data| && Legal(f) && !Bulk(f.state) && Told(data, p, total)
      requires f.state.ChunkSizeStart? ==> nread == 1
      requires nread == b.n + if ParsingHeader(f.state) then 1 else 0
      requires b.can ==> !Ended(Next(f, data[p])) && Legal(Next(f, data[p]).f)
      requires b.can ==> Tally(Next(f, data[p]).f, Counted(f, b.n, data[p]), data[p + 1..] + b.later).Some?
      modifies this`f, this`said, this`marks, this`nread
      ensures p <= q <= |data| && Ran(go, old(f), data, p, q, total) && nread <= old(nread)
      ensures go ==> q == p + 1 && Legal(f)
      ensures b.can ==> go && Affordable(data[q..] + b.later)
    {
      ghost var f0 := f;
      go := Step(data, p, total);
      q := if f.errno.OK? then p + 1 else p;
      StepRun(f0, data, p);
      if go {
        NextLegal(f0, data[p]);
      }
      if b.can {
        TallyLess(f, nread, Counted(f0, b.n, data[p]), data[q..] + b.later);
      }
    }

    /** Data that waited when the last call ended is waiting from the start of this one. */
    method InitialMarks(data: string)
      requires Legal(f)
      modifies this`marks
      ensures Told(data, 0, Atoms(said))
    {
      marks := NO_MARKS;
      if f.state.HeaderField? {
        marks := Set(marks, FIELD, Some(0));
      }
      if f.state.HeaderValue? {
        marks := Set(marks, VALUE, Some(0));
      }
      if UrlState(f.state) {
        marks := Set(marks, URL, Some(0));
      } else if f.state.ResStatus? {
        marks := Set(marks, STATUS, Some(0));
      }
      assert data[0..0] == "" && Atoms(said) + [] == Atoms(said);
    }

    /** The callbacks for data that is left over. */
    method Leftovers(data: string, ghost total: seq<Atom>)
      requires f.errno.OK? && Told(data, |data|, total)
      modifies this`said, this`marks
      ensures Atoms(said) == total && marks == NO_MARKS
    {
      assert forall a, b :: Get(marks, a).Some? && Get(marks, b).Some? ==> a == b by {
        forall a, b | Get(marks, a).Some? && Get(marks, b).Some? ensures a == b {
          OneKind(f.state, a, b);
        }
      }
      if Get(marks, FIELD).Some? {
        CallbackData(FIELD, data, |data|, total);
      }
      if Get(marks, VALUE).Some? {
        CallbackData(VALUE, data, |data|, total);
      }
      if Get(marks, URL).Some? {
        CallbackData(URL, data, |data|, total);
      }
      if Get(marks, BODY).Some? {
        CallbackData(BODY, data, |data|, total);
      }
      if Get(marks, STATUS).Some? {
        CallbackData(STATUS, data, |data|, total);
      }
      assert total + [] == total;
    }

    /** The end of the input, told by an empty call. */
    method ExecuteEof() returns (parsed: nat)
      requires Legal(f)
      modifies this`f, this`said
      ensures f == if f.errno.OK? then old(f) else Fail(old(f), INVALID_EOF_STATE)
      ensures f.errno.OK? <==> AtEnd(old(f).state)
      ensures Atoms(said) == old(Atoms(said)) + if old(f).state.BodyIdentityEof? then [Note(MessageComplete)] else []
    {
      assert Atoms(said) + [] == Atoms(said);
      if f.state.BodyIdentityEof? {
        Notify(MessageComplete, Atoms(said));
        return 0;
      }
      if AtEnd(f.state) {
        return 0;
      }
      f := Fail(f, INVALID_EOF_STATE);
      return 1;
    }

    /** The run ended at `p`. */
    ghost predicate Stopped(f0: Fields, data: string, p: nat, before: seq<Atom>)
      reads this
      requires Legal(f0) && p <= |data|
    {
      var t := Fold(f0, data[0..p]);
      || (f.errno.OK? && t.stop && f == t.f && Atoms(said) == before + t.atoms)
      || TooLong()
      || (p < |data| && Refused(f0, data[0..p], data[p], f.errno))
    }

    /** The main loop of http_parser_execute. */
    method Loop(data: string, ghost before: seq<Atom>, ghost later: string) returns (go: bool, p: nat)
      requires Legal(f) && NreadLegal() && Told(data, 0, before)
      modifies this`f, this`said, this`marks, this`nread
      ensures p <= |data|
      ensures go ==> p == |data| && Legal(f) && Ran(true, old(f), data, 0, |data|, before)
      ensures !go ==> Stopped(old(f), data, p, before)
      ensures old(Affordable(data + later)) ==> go && Affordable(later)
      ensures nread <= old(nread) + |data| + 1
    {
      ghost var can := Affordable(data + later);
      assert data[0..] == data;
      ghost var f0 := f;
      p := 0;
      FoldNothing(f0, data, before);
      while p < |data|
        invariant p <= |data| && Legal(f) && Ran(true, f0, data, 0, p, before)
        invariant can ==> Affordable(data[p..] + later)
        invariant nread <= old(nread) + p + (if p == |data| then 1 else 0)
      {
        ghost var told := before + Fold(f0, data[0..p]).atoms;
        var start := p;
        go, p := Turn1(data, start, told, later);
        FoldPart(f0, data, start, p, before);
        if !go {
          RefusedPart(f0, data, start, p, f.errno);
          return;
        }
      }
      go := true;
      assert data[p..] + later == later;
    }

    /**
     http_parser_execute. No assert fires. If the call succeeds, the fields and everything that was told to the callbacks are
     what the reference gives for the bytes of the call; a call that stops early does so because the rest is in another
     protocol. An error is the header size limit or that of the reference for the byte at `parsed`, unless that byte is one
     that is checked or not as the input is cut. Input that the limit leaves room for is taken whole; `later` is what further
     calls will bring.
     */
    method Execute(data: string, ghost later: string) returns (parsed: nat)
      requires Valid() && data != ""
      modifies this
      ensures Valid() && parsed <= |data|
      ensures !old(f.errno).OK? ==> parsed == 0 && f == old(f) && said == old(said)
      ensures old(f.errno).OK? ==>
        var t := Fold(old(f), data);
        if f.errno.OK? then
          f == t.f && Atoms(said) == old(Atoms(said)) + t.atoms && t == Fold(old(f), data[0..parsed]) && (parsed < |data| ==> t.stop)
        else TooLong() || (parsed < |data| && Refused(old(f), data[0..parsed], data[parsed], f.errno))
      ensures nread <= old(nread) + |data| + 1
      ensures old(f.errno).OK? && old(Affordable(data + later)) ==>
        f.errno.OK? && parsed == |data| && !Fold(old(f), data).stop && Affordable(later)
    {
      if !f.errno.OK? {
        return 0;
      }
      ghost var before := Atoms(said);
      InitialMarks(data);
      var go;
      ghost var t := Fold(f, data);
      ghost var f0 := f;
      go, parsed := Loop(data, before, later);
      assert data[0..|data|] == data;
      if go {
        Leftovers(data, before + t.atoms);
      } else if f.errno.OK? {
        EndedEarly(f0, data, parsed);
        FoldLegal(f0, data);
        StopState(f0, data);
      }
    }

    lemma OnlyMarked(kind: DataKind, p: nat, data: string, total: seq<Atom>)
      requires p <= |data| && marks == Set(NO_MARKS, kind, Some(p)) && Atoms(said) == total
      ensures Only(marks, kind, p) && Atoms(said) + Pending(marks, data, p) == total
    {
      PendingOnly(marks, data, p, kind);
      assert data[p..p] == "" && total + [] == total;
    }
  }

  /** Where the input may end. */
  predicate AtEnd(s: State) {
    s.BodyIdentityEof? || s.Dead? || s.StartReqOrRes? || s.StartRes? || s.StartReq?
  }

  lemma StopAtNewMessage(f: Fields, ch: char)
    requires Legal(f) && Next(f, ch).stop
    ensures !Next(f, ch).f.state.ChunkSizeStart?
  {
  }

  /** A run that stops early stops between two messages. */
  lemma {:induction false} StopState(f: Fields, s: string)
    requires Legal(f) && Fold(f, s).stop
    ensures !Fold(f, s).f.state.ChunkSizeStart?
    decreases |s|
  {
    FoldStep(f, s);
    if Ended(Next(f, s[0])) {
      StopAtNewMessage(f, s[0]);
    } else {
      StopState(Next(f, s[0]).f, s[1..]);
    }
  }

  lemma FoldNothing(f: Fields, data: string, before: seq<Atom>)
    requires Legal(f)
    ensures Fold(f, data[0..0]) == Silent(f) && before == before + Fold(f, data[0..0]).atoms
  {
    assert data[0..0] == "" && before + [] == before;
  }

  /** The run so far, and the next piece of it. */
  lemma FoldPart(f: Fields, data: string, p: nat, q: nat, before: seq<Atom>)
    requires p <= q <= |data| && Legal(f) && !Ended(Fold(f, data[0..p]))
    ensures Legal(Fold(f, data[0..p]).f)
    ensures var t, u := Fold(f, data[0..p]), Fold(Fold(f, data[0..p]).f, data[p..q]);
      && Fold(f, data[0..q]) == Both(t, u) && before + t.atoms + u.atoms == before + Fold(f, data[0..q]).atoms
      && (Ended(u) ==> Fold(f, data) == Both(t, u))
      && (!Ended(u) ==> Legal(u.f))
  {
    ThreeParts(data, p, q);
    FoldJoin(f, data[0..p], data[p..q]);
    var t, u := Fold(f, data[0..p]), Fold(Fold(f, data[0..p]).f, data[p..q]);
    Appended(before, t, u);
    if Ended(u) {
      EndedEarly(f, data, q);
    } else {
      FoldLegal(t.f, data[p..q]);
    }
  }

  /** The refusal, seen from the start of the call. */
  lemma RefusedPart(f: Fields, data: string, p: nat, q: nat, e: Errno)
    requires p <= q <= |data| && Legal(f) && !Ended(Fold(f, data[0..p])) && Legal(Fold(f, data[0..p]).f)
    ensures q < |data| && Refused(Fold(f, data[0..p]).f, data[p..q], data[q], e) ==> Refused(f, data[0..q], data[q], e)
  {
    ThreeParts(data, p, q);
    FoldJoin(f, data[0..p], data[p..q]);
  }

  /** The step at `p` as a run. */
  lemma StepRun(f: Fields, data: string, p: nat)
    requires p < |data| && Legal(f)
    ensures Fold(f, data[p..p + 1]) == Next(f, data[p]) && data[p..p] == "" && Fold(f, data[p..p]) == Silent(f)
  {
    FoldOne(f, data[p]);
    assert data[p..p + 1] == [data[p]];
  }

  lemma ThreeParts(data: string, p: nat, q: nat)
    requires p <= q <= |data|
    ensures data[0..p] + data[p..] == data && data[p..q] + data[q..] == data[p..]
    ensures data[0..p] + data[p..q] == data[0..q] && data[0..q] + data[q..] == data
  {
  }

  lemma EndedEarly(f: Fields, data: string, q: nat)
    requires q <= |data| && Legal(f) && Ended(Fold(f, data[0..q]))
    ensures Fold(f, data) == Fold(f, data[0..q])
  {
    ThreeParts(data, 0, q);
    FoldJoin(f, data[0..q], data[q..]);
  }

  // ---------- the header size limit ----------

  lemma NextIsPaid(f: Fields, b: Budget, data: string, p: nat)
    requires p < |data| && Legal(f) && Tally(f, b.n, data[p..] + b.later).Some?
    ensures ParsingHeader(f.state) ==> b.n < HTTP_MAX_HEADER_SIZE
    ensures !Ended(Next(f, data[p])) && Legal(Next(f, data[p]).f)
    ensures Tally(Next(f, data[p]).f, Counted(f, b.n, data[p]), data[p + 1..] + b.later).Some?
  {
    FirstLater(data, p, b.later);
    var g, m := TallyNext(f, b.n, data[p..] + b.later);
  }

  lemma FirstLater(data: string, p: nat, later: string)
    requires p < |data|
    ensures var s := data[p..] + later; s != "" && s[0] == data[p] && s[1..] == data[p + 1..] + later
  {
  }

  lemma SplitLater(data: string, p: nat, q: nat, later: string)
    requires p <= q <= |data|
    ensures data[p..] + later == data[p..q] + (data[q..] + later)
  {
  }

  lemma DataFits(f: Fields, b: Budget, data: string, p: nat, q: nat)
    requires p <= q <= |data| && Legal(f) && BodyBytes(f, data[p..q])
    requires Tally(f, b.n, data[p..] + b.later).Some?
    ensures !Ended(Fold(f, data[p..q])) && Legal(Fold(f, data[p..q]).f)
    ensures Tally(Fold(f, data[p..q]).f, b.n, data[q..] + b.later).Some?
  {
    SplitLater(data, p, q, b.later);
    DataIsFree(f, b.n, data[p..q], data[q..] + b.later);
  }

  /** Header text up to `q` is within the limit, with the byte that was counted in advance. */
  lemma TextFits(f0: Fields, f: Fields, b: Budget, data: string, p: nat, q: nat, kind: DataKind) returns (n: nat)
    requires p <= q <= |data| && p < |data| && Legal(f0) && Legal(f) && HeaderText(f0, data[p..q]) && ParsingHeader(f0.state)
    requires Fold(f0, data[p..q]) == Turn(f, Bytes(kind, data[p..q]), false)
    requires Tally(f0, b.n, data[p..] + b.later).Some?
    ensures n == b.n + 2 * (q - p) && b.n + (q - p) + 1 <= HTTP_MAX_HEADER_SIZE
    ensures Tally(f, n, data[q..] + b.later).Some?
  {
    NextIsPaid(f0, b, data, p);
    SplitLater(data, p, q, b.later);
    n := TextCounts(f0, b.n, data[p..q], data[q..] + b.later);
  }

  /** Behind a name, the call ends or a colon follows. */
  lemma FieldEndFits(f: Fields, n: nat, b: Budget, data: string, q: nat)
    requires q <= |data| && Legal(f) && f.state.HeaderField? && (q < |data| ==> Token(data[q]) == None)
    requires n <= (if q < |data| then b.n + 1 else b.n) && Tally(f, b.n, data[q..] + b.later).Some?
    ensures q == |data| ==> Tally(f, n, data[q..] + b.later).Some?
    ensures q < |data| ==> data[q] == ':' && Legal(Goto(f, HeaderValueDiscardWs))
    ensures q < |data| ==> Tally(Goto(f, HeaderValueDiscardWs), n, data[q + 1..] + b.later).Some?
  {
    if q < |data| {
      FirstLater(data, q, b.later);
      FieldEndTally(f, n, b.n, data[q..] + b.later, data[q + 1..] + b.later);
    } else {
      TallyLess(f, n, b.n, data[q..] + b.later);
    }
  }

  lemma FieldEndTally(f: Fields, n: nat, m: nat, s: string, tail: string)
    requires Legal(f) && f.state.HeaderField? && s != "" && Token(s[0]) == None && Tally(f, m, s).Some?
    requires tail == s[1..] && n <= m + 1
    ensures s[0] == ':' && Legal(Goto(f, HeaderValueDiscardWs))
    ensures Tally(Goto(f, HeaderValueDiscardWs), n, tail).Some?
  {
    var g, k := TallyNext(f, m, s);
    TallyLess(g, n, k, tail);
  }

  /** Behind a value, the call or the line ends. */
  lemma ValueEndFits(f: Fields, n: nat, b: Budget, data: string, q: nat)
    requires q <= |data| && Legal(f) && f.state.HeaderValue? && (q < |data| ==> data[q] == CR || data[q] == LF)
    requires n <= (if q < |data| then b.n + 1 else b.n) && Tally(f, b.n, data[q..] + b.later).Some?
    ensures q == |data| ==> Tally(f, n, data[q..] + b.later).Some?
    ensures q < |data| ==> Legal(LineEnded(f, data[q]))
    ensures q < |data| ==> Tally(LineEnded(f, data[q]), n, data[q + 1..] + b.later).Some?
  {
    if q < |data| {
      FirstLater(data, q, b.later);
      ValueEndTally(f, n, b.n, data[q..] + b.later, data[q + 1..] + b.later);
    } else {
      TallyLess(f, n, b.n, data[q..] + b.later);
    }
  }

  lemma ValueEndTally(f: Fields, n: nat, m: nat, s: string, tail: string)
    requires Legal(f) && f.state.HeaderValue? && s != "" && (s[0] == CR || s[0] == LF) && Tally(f, m, s).Some?
    requires tail == s[1..] && n <= m + 1
    ensures Legal(LineEnded(f, s[0])) && Tally(LineEnded(f, s[0]), n, tail).Some?
  {
    var g, k := TallyNext(f, m, s);
    ValueEndNext(f, m, s[0]);
    TallyLess(g, n, k, tail);
  }

  lemma ValueEndNext(f: Fields, n: nat, ch: char)
    requires Legal(f) && f.state.HeaderValue? && (ch == CR || ch == LF)
    ensures Next(f, ch) == Silent(LineEnded(f, ch)) && Counted(f, n, ch) == n + 1
  {
  }

  function LineEnded(f: Fields, ch: char): Fields {
    Goto(f, if ch == CR then HeaderAlmostDone else HeaderValueLws)
  }

  /** What stops a name. */
  lemma FieldStops(f0: Fields, f: Fields, data: string, p: nat, q: nat)
    requires p <= q < |data| && Legal(f0) && Legal(f) && f.state.HeaderField? && Token(data[q]) == None
    requires Fold(f0, data[p..q]) == Turn(f, Bytes(FIELD, data[p..q]), false)
    ensures data[q] == ':' ==> Legal(Goto(f, HeaderValueDiscardWs))
    ensures data[q] == ':' ==> Fold(f0, data[p..q + 1]) == Turn(Goto(f, HeaderValueDiscardWs), Bytes(FIELD, data[p..q]), false)
    ensures data[q] != ':' ==> Refused(f0, data[p..q], data[q], INVALID_HEADER_TOKEN)
  {
    if data[q] == ':' {
      SilentSnoc(f0, f, data, p, q, FIELD, Goto(f, HeaderValueDiscardWs));
    }
  }

  /** Behind data, a byte that says nothing. */
  lemma SilentSnoc(f0: Fields, f: Fields, data: string, p: nat, q: nat, kind: DataKind, g: Fields)
    requires p <= q < |data| && Legal(f0) && Legal(f) && Next(f, data[q]) == Silent(g) && g.errno.OK?
    requires Fold(f0, data[p..q]) == Turn(f, Bytes(kind, data[p..q]), false)
    ensures Legal(g) && Fold(f0, data[p..q + 1]) == Turn(g, Bytes(kind, data[p..q]), false)
  {
    NextLegal(f, data[q]);
    RunSnoc(f0, data, p, q);
    assert Bytes(kind, data[p..q]) + [] == Bytes(kind, data[p..q]);
  }

  lemma NotRefused(f: Fields, b: Budget, data: string, p: nat, q: nat, e: Errno)
    requires p <= q < |data| && Legal(f) && Tally(f, b.n, data[p..] + b.later).Some?
    ensures !Refused(f, data[p..q], data[q], e)
  {
    SplitLater(data, p, q, b.later);
    TallyJoin(f, b.n, data[p..q], data[q..] + b.later);
    assert (data[q..] + b.later)[0] == data[q];
  }

  // ---------- many bytes of data at once ----------

  lemma Appended(total: seq<Atom>, t: Turn, next: Turn)
    ensures total + t.atoms + next.atoms == total + Both(t, next).atoms
  {
  }

  lemma RunSnoc(f0: Fields, data: string, p: nat, q: nat)
    requires p <= q < |data| && Legal(f0) && !Ended(Fold(f0, data[p..q]))
    ensures Legal(Fold(f0, data[p..q]).f)
    ensures Fold(f0, data[p..q + 1]) == Both(Fold(f0, data[p..q]), Next(Fold(f0, data[p..q]).f, data[q]))
  {
    assert data[p..q + 1] == data[p..q] + [data[q]];
    FoldSnoc(f0, data[p..q], data[q]);
  }

  /** One more byte of data. */
  lemma RunMore(f0: Fields, f: Fields, data: string, p: nat, q: nat, kind: DataKind)
    requires p <= q < |data| && Legal(f0) && Legal(f) && Fold(f0, data[p..q]) == Turn(f, Bytes(kind, data[p..q]), false)
    ensures Next(f, data[q]) == Turn(Next(f, data[q]).f, [Byte(kind, data[q])], false) && Next(f, data[q]).f.errno.OK? ==>
              Fold(f0, data[p..q + 1]) == Turn(Next(f, data[q]).f, Bytes(kind, data[p..q + 1]), false)
  {
    RunSnoc(f0, data, p, q);
    assert data[p..q + 1] == data[p..q] + data[q..q + 1];
    BytesJoin(kind, data[p..q], data[q..q + 1]);
    OneByte(kind, data, q);
  }

  /** Bytes that change nothing. */
  lemma {:induction false} SameFold(f: Fields, s: string, kind: DataKind)
    requires Legal(f) && forall i :: 0 <= i < |s| ==> Next(f, s[i]) == Turn(f, [Byte(kind, s[i])], false)
    ensures Fold(f, s) == Turn(f, Bytes(kind, s), false)
    decreases |s|
  {
    if s != "" {
      FoldStep(f, s);
      forall i | 0 <= i < |s| - 1 ensures Next(f, s[1..][i]) == Turn(f, [Byte(kind, s[1..][i])], false) {
        assert s[1..][i] == s[i + 1];
      }
      SameFold(f, s[1..], kind);
      FirstByte(kind, s);
    }
  }

  lemma FirstByte(kind: DataKind, s: string)
    requires s != ""
    ensures Bytes(kind, s) == [Byte(kind, s[0])] + Bytes(kind, s[1..])
  {
    assert s == [s[0]] + s[1..];
    BytesJoin(kind, [s[0]], s[1..]);
    assert Bytes(kind, [s[0]]) == [Byte(kind, s[0])];
  }

  /** A checked character of a value. */
  lemma ValueCharRun(f0: Fields, f: Fields, data: string, p: nat, q: nat)
    requires p <= q < |data| && Legal(f0) && Legal(f) && f.state.HeaderValue?
    requires Fold(f0, data[p..q]) == Turn(f, Bytes(VALUE, data[p..q]), false)
    requires data[q] != CR && data[q] != LF && !ValueCharBad(f, data[q]) && !Unchecked(f, data[q])
    ensures var g := ValueChar(f, data[q]);
      if g.errno.OK? then
        Legal(g) && g.state.HeaderValue? && Fold(f0, data[p..q + 1]) == Turn(g, Bytes(VALUE, data[p..q + 1]), false)
      else Refused(f0, data[p..q], data[q], g.errno)
  {
    NextValue(f, data[q]);
    if ValueChar(f, data[q]).errno.OK? {
      RunMore(f0, f, data, p, q, VALUE);
    }
  }

  /** The end of the line says nothing. */
  lemma ValueEndFold(f0: Fields, f: Fields, data: string, p: nat, q: nat)
    requires p <= q < |data| && Legal(f0) && Legal(f) && f.state.HeaderValue? && (data[q] == CR || data[q] == LF)
    requires Fold(f0, data[p..q]) == Turn(f, Bytes(VALUE, data[p..q]), false)
    ensures Legal(LineEnded(f, data[q]))
    ensures Fold(f0, data[p..q + 1]) == Turn(LineEnded(f, data[q]), Bytes(VALUE, data[p..q]), false)
  {
    SilentSnoc(f0, f, data, p, q, VALUE, LineEnded(f, data[q]));
  }

  lemma NextValue(f: Fields, ch: char)
    requires Legal(f) && f.state.HeaderValue? && ch != CR && ch != LF && !ValueCharBad(f, ch)
    ensures Next(f, ch) == Gives(ValueChar(f, ch), VALUE, ch)
    ensures ValueChar(f, ch).errno.OK? ==> Legal(ValueChar(f, ch)) && ValueChar(f, ch).state.HeaderValue?
  {
    if ValueChar(f, ch).errno.OK? {
      ValueCharLegal(f, ch);
    }
  }

  /** The rest of a line in an ordinary value. */
  lemma GeneralRun(f0: Fields, f: Fields, data: string, p: nat, q: nat, r: nat)
    requires p <= q <= r <= |data| && Legal(f0) && Legal(f) && f.state.HeaderValue? && f.headerState.General?
    requires Fold(f0, data[p..q]) == Turn(f, Bytes(VALUE, data[p..q]), false)
    requires forall i :: q <= i < r ==> data[i] != CR && data[i] != LF
    ensures Fold(f0, data[p..r]) == Turn(f, Bytes(VALUE, data[p..r]), false)
  {
    var s := data[q..r];
    forall i | 0 <= i < |s| ensures Next(f, s[i]) == Turn(f, [Byte(VALUE, s[i])], false) {
      assert s[i] == data[q + i];
    }
    SameFold(f, s, VALUE);
    FoldJoin(f0, data[p..q], s);
    assert data[p..r] == data[p..q] + s;
    BytesJoin(VALUE, data[p..q], s);
  }

  lemma Joined(a: seq<Atom>, b: seq<Atom>, c: seq<Atom>)
    ensures a + (b + c) == a + b + c
  {
  }

  lemma {:induction false} IdentityFold(f: Fields, s: string)
    requires Legal(f) && f.state.BodyIdentity? && 0 < |s| <= f.contentLength
    ensures var g := f.(contentLength := f.contentLength - |s|);
      Fold(f, s) ==
        if |s| < f.contentLength then Turn(g, Bytes(BODY, s), false)
        else Turn(Goto(g, NewMessage(g)), Bytes(BODY, s) + [Note(MessageComplete)], g.upgrade)
    decreases |s|
  {
    FoldStep(f, s);
    FirstByte(BODY, s);
    if |s| > 1 {
      IdentityFold(f.(contentLength := f.contentLength - 1), s[1..]);
      Joined([Byte(BODY, s[0])], Bytes(BODY, s[1..]), [Note(MessageComplete)]);
    } else {
      assert s[1..] == "" && Bytes(BODY, s) == [Byte(BODY, s[0])];
      assert f.contentLength > 1 ==> [Byte(BODY, s[0])] + [] == Bytes(BODY, s);
      assert [Byte(BODY, s[0])] + [Note(MessageComplete)] + [] == [Byte(BODY, s[0])] + [Note(MessageComplete)];
    }
  }

  lemma {:induction false} ChunkFold(f: Fields, s: string)
    requires Legal(f) && f.state.ChunkData? && 0 < |s| <= f.contentLength
    ensures var g := f.(contentLength := f.contentLength - |s|);
      Fold(f, s) == Turn(if |s| < f.contentLength then g else Goto(g, ChunkDataAlmostDone), Bytes(BODY, s), false)
    decreases |s|
  {
    FoldStep(f, s);
    FirstByte(BODY, s);
    if |s| > 1 {
      ChunkFold(f.(contentLength := f.contentLength - 1), s[1..]);
    } else {
      assert s[1..] == "" && Bytes(BODY, s) == [Byte(BODY, s[0])];
      assert [Byte(BODY, s[0])] + [] == Bytes(BODY, s);
    }
  }

  /** The states that look ahead for more than one byte. */
  predicate Bulk(s: State) {
    s.HeaderField? || s.HeaderValue? || s.BodyIdentity? || s.BodyIdentityEof? || s.ChunkData?
  }

  lemma NoteFirst(total: seq<Atom>, n: Notice, t: Turn)
    ensures total + [Note(n)] + t.atoms == total + After(n, t).atoms
  {
  }

  lemma OnlyCleared(before: Marks, after: Marks, kind: DataKind, p: nat)
    requires Only(before, kind, p) && after == if Get(before, kind).Some? then Set(before, kind, None) else before
    ensures after == NO_MARKS
  {
    forall k ensures Get(after, k) == None {
      assert k != kind ==> Get(before, k) == None;
    }
    assert Get(after, FIELD) == None && Get(after, VALUE) == None && Get(after, URL) == None && Get(after, BODY) == None && Get(after, STATUS) == None;
  }

  lemma OnlyLegal(m: Marks, s: State, kind: DataKind, p: nat)
    requires Only(m, kind, p) && Waits(s, kind)
    ensures MarksLegal(m, s, p)
  {
  }

  lemma OneByte(kind: DataKind, data: string, p: nat)
    requires p < |data|
    ensures Bytes(kind, data[p..p + 1]) == [Byte(kind, data[p])]
  {
  }

  /** No data waits behind a quiet state. */
  lemma QuietSilent(f: Fields, ch: char)
    requires Legal(f) && IsQuiet(f.state)
    ensures forall kind :: !Waits(Quiet(f, ch).state, kind)
    ensures !Quiet(f, ch).state.ChunkSizeStart? || Quiet(f, ch).errno == INVALID_CHUNK_SIZE
  {
    var g := Quiet(f, ch);
    if QuietResponse(f.state) {
      ResponseSilent(f, ch, g);
    } else {
      RequestSilent(f, ch, g);
    }
  }

  predicate NoMark(s: State) {
    && !s.HeaderField? && !s.HeaderValue? && !UrlState(s) && !s.ResStatus?
    && !s.BodyIdentity? && !s.BodyIdentityEof? && !s.ChunkData? && !s.ChunkDataAlmostDone?
  }

  lemma ResponseSilent(f: Fields, ch: char, g: Fields)
    requires Legal(f) && QuietResponse(f.state) && g == Quiet(f, ch)
    ensures NoMark(g.state) && !g.state.ChunkSizeStart?
  {
  }

  lemma RequestSilent(f: Fields, ch: char, g: Fields)
    requires Legal(f) && QuietRequest(f.state) && g == Quiet(f, ch)
    ensures NoMark(g.state) && (g.state.ChunkSizeStart? ==> g.errno == INVALID_CHUNK_SIZE)
  {
  }

  lemma StatusOnly(m: Marks, s: State, p: nat)
    requires MarksLegal(m, s, p) && (s.ResStatusStart? || s.ResStatus?)
    ensures Only(m, STATUS, p)
  {
    if s.ResStatus? {
      OnlyWaiting(m, s, STATUS, p);
    } else {
      NothingWaiting(m, s, p);
    }
  }
}
