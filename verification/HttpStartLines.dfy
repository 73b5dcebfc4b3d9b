/** The first line of a message (sections 5.1 and 6.1 of RFC 2616), and what the parser learns from it. */
module HttpStartLines {
  import opened CStrings
  import opened HttpStates
  import opened HttpReference
  import opened HttpRuns
  import opened HttpParser
  import opened HttpHeads
  import opened HttpTargets

  /** The digits of a version number, and of a status code. */
  datatype Start =
    | RequestLine(verb: Method, target: Target, major: char, minor: char)
    | StatusLine(major: char, minor: char, hundreds: char, tens: char, ones: char, reason: string)

  function Value(digit: char): (n: int)
    ensures '0' <= digit <= '9' ==> 0 <= n < 10
  {
    digit as int - '0' as int
  }

  /** A line of the standard, with one digit on either side of the point. CONNECT wants a host, the others do not. */
  predicate WellStarted(s: Start) {
    match s
    case RequestLine(verb, target, major, minor) =>
      WellAimed(target, verb.CONNECT?) && '1' <= major <= '9' && '0' <= minor <= '9'
    case StatusLine(major, minor, hundreds, tens, ones, reason) =>
      && '0' <= major <= '9' && '0' <= minor <= '9' && '0' <= hundreds <= '9' && '0' <= tens <= '9' && '0' <= ones <= '9'
      && CR !in reason && LF !in reason
  }

  function StartText(s: Start): string {
    match s
    case RequestLine(verb, target, major, minor) =>
      MethodString(verb) + " " + (TargetText(target) + " " + ("HTTP/" + [major, '.', minor] + CRLF))
    case StatusLine(major, minor, hundreds, tens, ones, reason) =>
      "HTTP/" + [major, '.', minor] + " " + ([hundreds, tens, ones] + " " + (reason + CRLF))
  }

  function StartAtoms(s: Start): seq<Atom> {
    [Note(MessageBegin)] + if s.RequestLine? then Bytes(URL, TargetText(s.target)) else Bytes(STATUS, s.reason)
  }

  /** Waiting for a message of its kind, with no other protocol in sight. */
  predicate AtStart(f: Fields) {
    && Legal(f) && !f.upgrade
    && ((f.kind.REQUEST? && f.state.StartReq?) || (f.kind.RESPONSE? && f.state.StartRes? && !f.verb.CONNECT?))
  }

  // ---------- methods ----------

  /** The verb whose name is compared before, and the index at which the names part. */
  function Parent(m: Method): (r: Option<(Method, nat)>) {
    match m
    case CHECKOUT => Some((CONNECT, 1)) case COPY => Some((CONNECT, 2)) case LINK => Some((LOCK, 1)) case MOVE => Some((MKCOL, 1))
    case MERGE => Some((MKCOL, 1)) case MKACTIVITY => Some((MKCOL, 2)) case MKCALENDAR => Some((MKCOL, 3))
    case MSEARCH => Some((MKCOL, 1)) case PUT => Some((POST, 1)) case PATCH => Some((POST, 1)) case PROPFIND => Some((POST, 1))
    case PROPPATCH => Some((PROPFIND, 4)) case PURGE => Some((PUT, 2)) case REBIND => Some((REPORT, 2))
    case SEARCH => Some((SUBSCRIBE, 1)) case UNSUBSCRIBE => Some((UNLOCK, 2)) case UNBIND => Some((UNLOCK, 2))
    case UNLINK => Some((UNLOCK, 3))
    case _ => None
  }

  function Parts(m: Method): nat {
    if Parent(m).Some? then Parent(m).value.1 else 0
  }

  lemma ParentFits(m: Method)
    requires Parent(m).Some?
    ensures var (p, at) := Parent(m).value;
      && Parts(p) < at < |MethodString(m)| && at < |MethodString(p)|
      && MethodString(p)[..at] == MethodString(m)[..at] && MethodString(p)[at] != MethodString(m)[at]
  {
    ParentText(m);
  }

  lemma ParentText(m: Method)
    requires Parent(m).Some?
    ensures var (p, at) := Parent(m).value;
      && Parts(p) < at < |MethodString(m)| && at < |MethodString(p)| && MethodString(p)[at] != MethodString(m)[at]
      && MethodString(p)[0] == MethodString(m)[0] && (at > 1 ==> MethodString(p)[1] == MethodString(m)[1])
      && (at > 2 ==> MethodString(p)[2] == MethodString(m)[2]) && (at > 3 ==> MethodString(p)[3] == MethodString(m)[3]) && at < 5
  {
  }

  lemma ParentTurns(m: Method)
    requires Parent(m).Some?
    ensures var (p, at) := Parent(m).value;
      && at < |MethodString(m)|
      && var ch := MethodString(m)[at];
         if m.MSEARCH? then p.MKCOL? && at == 1 && ch == '-' else IsAlpha(ch) && OtherMethod(p, at, ch) == Some(m)
  {
  }

  lemma RootFirst(m: Method)
    requires Parent(m) == None
    ensures FirstMethod(MethodString(m)[0]) == Some(m)
  {
  }

  lemma MethodLetters(m: Method, i: nat)
    requires i < |MethodString(m)|
    ensures var ch := MethodString(m)[i]; ch as int != 0 && ch != ' ' && ch != CR && ch != LF && (i == 0 ==> IsAlpha(ch))
  {
  }

  /** Behind the first `k` letters of a method that has parted from all others. */
  function Reading(f: Fields, m: Method, k: nat): Fields {
    Fresh(f).(verb := m, index := k, state := ReqMethod)
  }

  lemma LetterGoes(f: Fields, p: Method, k: nat, m: Method)
    requires Legal(Reading(f, p, k)) && !f.upgrade && k < |MethodString(m)| && k < 15
    requires (p == m && k < |MethodString(m)|) || (Parent(m) == Some((p, k)) && k < |MethodString(p)|)
    ensures Legal(Reading(f, m, k + 1)) && Goes(Reading(f, p, k), [MethodString(m)[k]], Reading(f, m, k + 1), [])
  {
    var g, ch := Reading(f, p, k), MethodString(m)[k];
    MethodLetters(m, k);
    if p != m {
      ParentFits(m);
      ParentTurns(m);
    }
    assert MethodChar(g, ch) == Reading(f, m, k + 1);
    GoesOne(g, ch);
  }

  /** The letters of a method name are read as that method once it has parted from the others. */
  lemma {:induction false} LettersGo(f: Fields, m: Method, k: nat)
    requires AtStart(f) && f.kind.REQUEST? && Parts(m) < k <= |MethodString(m)|
    ensures Goes(f, MethodString(m)[..k], Reading(f, m, k), [Note(MessageBegin)])
    decreases Parts(m), k
  {
    var name := MethodString(m);
    MethodStrings(m);
    assert name[..k] == name[..k - 1] + [name[k - 1]];
    if k > Parts(m) + 1 {
      LettersGo(f, m, k - 1);
      LetterGoes(f, m, k - 1, m);
      GoesSnoc(f, name[..k - 1], Reading(f, m, k - 1), [Note(MessageBegin)], name[k - 1], Reading(f, m, k));
    } else if Parent(m).Some? {
      ParentFits(m);
      var (p, at) := Parent(m).value;
      LettersGo(f, p, at);
      LetterGoes(f, p, at, m);
      GoesSnoc(f, name[..at], Reading(f, p, at), [Note(MessageBegin)], name[at], Reading(f, m, k));
    } else {
      assert name[..1] == [name[0]];
      RootGoes(f, m, name[0]);
    }
  }

  lemma RootGoes(f: Fields, m: Method, ch: char)
    requires AtStart(f) && f.kind.REQUEST? && Parent(m) == None && ch == MethodString(m)[0]
    ensures Goes(f, [ch], Reading(f, m, 1), [Note(MessageBegin)])
  {
    RootFirst(m);
    MethodLetters(m, 0);
    assert StartReqTurn(f, ch) == Tells(Reading(f, m, 1), MessageBegin);
    GoesOne(f, ch);
  }

  lemma GoesSnoc(f: Fields, a: string, g: Fields, atoms: seq<Atom>, ch: char, h: Fields)
    requires Goes(f, a, g, atoms) && Goes(g, [ch], h, [])
    ensures Goes(f, a + [ch], h, atoms)
  {
    GoesJoin(f, a, g, atoms, [ch], h, []);
    assert atoms + [] == atoms;
  }

  /** Every method name is known for itself. */
  lemma MethodGoes(f: Fields, m: Method)
    requires AtStart(f) && f.kind.REQUEST?
    ensures var k := |MethodString(m)|;
      Goes(f, MethodString(m) + " ", Reading(f, m, k).(index := k + 1, state := ReqSpacesBeforeUrl), [Note(MessageBegin)])
  {
    var name := MethodString(m);
    MethodStrings(m);
    if Parent(m).Some? {
      ParentFits(m);
    }
    LettersGo(f, m, |name|);
    assert name[..|name|] == name;
    MethodEndGoes(Reading(f, m, |name|));
    GoesSnoc(f, name, Reading(f, m, |name|), [Note(MessageBegin)], ' ', Reading(f, m, |name|).(index := |name| + 1, state := ReqSpacesBeforeUrl));
  }

  lemma MethodEndGoes(f: Fields)
    requires Legal(f) && f.state.ReqMethod? && f.index == |MethodString(f.verb)| && f.index < 15 && !f.upgrade
    ensures Goes(f, [' '], f.(index := f.index + 1, state := ReqSpacesBeforeUrl), [])
  {
    assert MethodChar(f, ' ') == f.(index := f.index + 1, state := ReqSpacesBeforeUrl);
    GoesOne(f, ' ');
  }

  // ---------- versions ----------

  /** A byte that only moves the parser on. */
  predicate Moves(f: Fields, ch: char, g: Fields) {
    IsQuiet(f.state) && !f.state.ReqMethod? && !f.upgrade && Quiet(f, ch) == g && g.errno.OK? && !g.upgrade
  }

  /** Such bytes in a row. */
  predicate Path(fs: seq<Fields>, s: string) {
    |fs| == |s| + 1 && forall i :: 0 <= i < |s| ==> Moves(fs[i], s[i], fs[i + 1])
  }

  lemma {:induction false} PathGoesOn(fs: seq<Fields>, s: string)
    requires Path(fs, s) && Legal(fs[0]) && !fs[0].upgrade
    ensures Goes(fs[0], s, fs[|s|], [])
    decreases |s|
  {
    if s == "" {
      GoesNothing(fs[0]);
    } else {
      assert Moves(fs[0], s[0], fs[0 + 1]);
      GoesOne(fs[0], s[0]);
      forall i | 0 <= i < |s| - 1 ensures Moves(fs[1..][i], s[1..][i], fs[1..][i + 1]) {
        assert Moves(fs[i + 1], s[i + 1], fs[i + 1 + 1]);
      }
      PathGoesOn(fs[1..], s[1..]);
      GoesOn(fs[0], s, fs[1], [], fs[|s|], []);
    }
  }

  lemma RequestProtocolGoes(f: Fields)
    requires Legal(f) && Closed(f.state) && !f.upgrade
    ensures Goes(f, " HTTP/", Goto(f, ReqFirstMajor), [])
  {
    var g := Goto(f, ReqHttpStart);
    TargetEndGoes(f);
    var fs := RequestPath(g);
    PathGoesOn(fs, "HTTP/");
    GoesJoin(f, " ", g, [], "HTTP/", Goto(f, ReqFirstMajor), []);
    assert " " + "HTTP/" == " HTTP/";
  }

  lemma RequestPath(g: Fields) returns (fs: seq<Fields>)
    requires g.state.ReqHttpStart? && !g.upgrade && g.errno.OK?
    ensures Path(fs, "HTTP/") && fs[0] == g && fs[5] == Goto(g, ReqFirstMajor)
  {
    fs := [g, Goto(g, ReqHttpH), Goto(g, ReqHttpHT), Goto(g, ReqHttpHTT), Goto(g, ReqHttpHTTP), Goto(g, ReqFirstMajor)];
  }

  lemma VersionPath(f: Fields, major: char, minor: char) returns (fs: seq<Fields>)
    requires f.state.ReqFirstMajor? && !f.upgrade && f.errno.OK? && '1' <= major <= '9' && '0' <= minor <= '9'
    ensures Path(fs, [major, '.', minor, CR, LF]) && fs[0] == f
    ensures fs[5] == f.(major := Value(major), minor := Value(minor), state := HeaderFieldStart)
  {
    var f1 := f.(major := Value(major), state := ReqMajor);
    var f2 := Goto(f1, ReqFirstMinor);
    var f3 := f2.(minor := Value(minor), state := ReqMinor);
    fs := [f, f1, f2, f3, Goto(f3, ReqLineAlmostDone), Goto(f3, HeaderFieldStart)];
  }

  lemma ResponsePath(g: Fields) returns (fs: seq<Fields>)
    requires g.state.ResH? && !g.upgrade && g.errno.OK?
    ensures Path(fs, "TTP/") && fs[0] == g && fs[4] == Goto(g, ResFirstMajor)
  {
    fs := [g, Goto(g, ResHT), Goto(g, ResHTT), Goto(g, ResHTTP), Goto(g, ResFirstMajor)];
  }

  lemma RequestVersionGoes(f: Fields, major: char, minor: char)
    requires Legal(f) && f.state.ReqFirstMajor? && !f.upgrade && '1' <= major <= '9' && '0' <= minor <= '9'
    ensures Goes(f, [major, '.', minor] + CRLF, f.(major := Value(major), minor := Value(minor), state := HeaderFieldStart), [])
  {
    var fs := VersionPath(f, major, minor);
    assert [major, '.', minor] + CRLF == [major, '.', minor, CR, LF];
    PathGoesOn(fs, [major, '.', minor, CR, LF]);
  }

  /** The request line: a request with its method and its version. */
  lemma RequestGoes(f: Fields, s: Start) returns (g: Fields)
    requires AtStart(f) && f.kind.REQUEST? && s.RequestLine? && WellStarted(s)
    ensures Goes(f, StartText(s), g, StartAtoms(s))
    ensures AtHeader(g, NOTHING) && g.state.HeaderFieldStart? && g.kind.REQUEST?
    ensures g.verb == s.verb && g.major == Value(s.major) && g.minor == Value(s.minor)
  {
    var name, target, version := MethodString(s.verb) + " ", TargetText(s.target), [s.major, '.', s.minor] + CRLF;
    var h1 := Reading(f, s.verb, |MethodString(s.verb)|).(index := |MethodString(s.verb)| + 1, state := ReqSpacesBeforeUrl);
    MethodGoes(f, s.verb);
    var h2 := TargetGoes(h1, s.target);
    RequestProtocolGoes(h2);
    RequestVersionGoes(Goto(h2, ReqFirstMajor), s.major, s.minor);
    g := h2.(major := Value(s.major), minor := Value(s.minor), state := HeaderFieldStart);
    GoesJoin(f, name, h1, [Note(MessageBegin)], target, h2, Bytes(URL, target));
    var atoms := [Note(MessageBegin)] + Bytes(URL, target);
    GoesJoin(f, name + target, h2, atoms, " HTTP/", Goto(h2, ReqFirstMajor), []);
    GoesJoin(f, name + target + " HTTP/", Goto(h2, ReqFirstMajor), atoms + [], version, g, []);
    RequestText(MethodString(s.verb), target, version, [s.major, '.', s.minor]);
    assert atoms + [] + [] == StartAtoms(s);
  }

  lemma RequestText(name: string, target: string, version: string, digits: string)
    requires version == digits + CRLF
    ensures name + " " + target + " HTTP/" + version == name + " " + (target + " " + ("HTTP/" + digits + CRLF))
  {
    assert " HTTP/" == " " + "HTTP/";
    assert "HTTP/" + digits + CRLF == "HTTP/" + version;
  }

  // ---------- status lines ----------

  lemma ResponseProtocolGoes(f: Fields)
    requires AtStart(f) && f.kind.RESPONSE?
    ensures Goes(f, "HTTP/", Goto(Fresh(f), ResFirstMajor), [Note(MessageBegin)])
  {
    var g := Goto(Fresh(f), ResH);
    GoesOne(f, 'H');
    var fs := ResponsePath(g);
    PathGoesOn(fs, "TTP/");
    GoesJoin(f, ['H'], g, [Note(MessageBegin)], "TTP/", Goto(g, ResFirstMajor), []);
    assert ['H'] + "TTP/" == "HTTP/" && [Note(MessageBegin)] + [] == [Note(MessageBegin)];
  }

  lemma ResponseVersionGoes(f: Fields, major: char, minor: char)
    requires Legal(f) && f.state.ResFirstMajor? && !f.upgrade && '0' <= major <= '9' && '0' <= minor <= '9'
    ensures Goes(f, [major, '.', minor] + " ", f.(major := Value(major), minor := Value(minor), state := ResFirstStatusCode), [])
  {
    var f1 := f.(major := Value(major), state := ResMajor);
    var f2 := Goto(f1, ResFirstMinor);
    var f3 := f2.(minor := Value(minor), state := ResMinor);
    var fs := [f, f1, f2, f3, Goto(f3, ResFirstStatusCode)];
    assert [major, '.', minor] + " " == [major, '.', minor, ' '];
    assert Path(fs, [major, '.', minor, ' ']);
    PathGoesOn(fs, [major, '.', minor, ' ']);
  }

  function Code(s: Start): int
    requires s.StatusLine?
  {
    100 * Value(s.hundreds) + 10 * Value(s.tens) + Value(s.ones)
  }

  lemma CodeGoes(f: Fields, a: char, b: char, c: char)
    requires Legal(f) && f.state.ResFirstStatusCode? && !f.upgrade && '0' <= a <= '9' && '0' <= b <= '9' && '0' <= c <= '9'
    ensures Goes(f, [a, b, c] + " ", f.(statusCode := 100 * Value(a) + 10 * Value(b) + Value(c), state := ResStatusStart), [])
  {
    var f1 := f.(statusCode := Value(a), state := ResStatusCode);
    var f2 := f1.(statusCode := 10 * Value(a) + Value(b));
    var f3 := f1.(statusCode := 100 * Value(a) + 10 * Value(b) + Value(c));
    var fs := [f, f1, f2, f3, Goto(f3, ResStatusStart)];
    assert [a, b, c] + " " == [a, b, c, ' '];
    assert Path(fs, [a, b, c, ' ']);
    PathGoesOn(fs, [a, b, c, ' ']);
  }

  lemma {:induction false} ReasonGoes(f: Fields, s: string) returns (g: Fields)
    requires Legal(f) && (f.state.ResStatusStart? || f.state.ResStatus?) && !f.upgrade && CR !in s && LF !in s
    ensures Goes(f, s, g, Bytes(STATUS, s)) && g == f.(state := g.state, index := g.index) && (g.state.ResStatusStart? || g.state.ResStatus?)
    decreases |s|
  {
    if s == "" {
      GoesNothing(f);
      g := f;
    } else {
      assert s[0] in s;
      var h := if f.state.ResStatusStart? then f.(state := ResStatus, index := 0) else f;
      GoesOne(f, s[0]);
      g := ReasonGoes(h, s[1..]);
      GoesOn(f, s, h, [Byte(STATUS, s[0])], g, Bytes(STATUS, s[1..]));
      FirstByte(STATUS, s);
    }
  }

  lemma ReasonEndGoes(f: Fields)
    requires Legal(f) && (f.state.ResStatusStart? || f.state.ResStatus?) && !f.upgrade
    ensures Goes(f, CRLF, Goto(f, HeaderFieldStart), [])
  {
    GoesTwo(f, CR, Goto(f, ResLineAlmostDone), LF, Goto(f, HeaderFieldStart), []);
  }

  /** The status line: a response with its version and its code. */
  lemma ResponseGoes(f: Fields, s: Start) returns (g: Fields)
    requires AtStart(f) && f.kind.RESPONSE? && s.StatusLine? && WellStarted(s)
    ensures Goes(f, StartText(s), g, StartAtoms(s))
    ensures AtHeader(g, NOTHING) && g.state.HeaderFieldStart? && g.kind.RESPONSE? && g.verb == f.verb
    ensures g.statusCode == Code(s) && g.major == Value(s.major) && g.minor == Value(s.minor)
  {
    var version, code := [s.major, '.', s.minor] + " ", [s.hundreds, s.tens, s.ones] + " ";
    var h1 := Goto(Fresh(f), ResFirstMajor);
    var h2 := h1.(major := Value(s.major), minor := Value(s.minor), state := ResFirstStatusCode);
    var h3 := h2.(statusCode := Code(s), state := ResStatusStart);
    ResponseProtocolGoes(f);
    ResponseVersionGoes(h1, s.major, s.minor);
    CodeGoes(h2, s.hundreds, s.tens, s.ones);
    var h4 := ReasonGoes(h3, s.reason);
    ReasonEndGoes(h4);
    g := Goto(h4, HeaderFieldStart);
    var begin := [Note(MessageBegin)];
    GoesJoin(f, "HTTP/", h1, begin, version, h2, []);
    GoesJoin(h2, code, h3, [], s.reason, h4, Bytes(STATUS, s.reason));
    GoesJoin(h2, code + s.reason, h4, [] + Bytes(STATUS, s.reason), CRLF, g, []);
    GoesJoin(f, "HTTP/" + version, h2, begin + [], code + s.reason + CRLF, g, [] + Bytes(STATUS, s.reason) + []);
    ResponseText([s.major, '.', s.minor], [s.hundreds, s.tens, s.ones], s.reason);
    assert begin + [] + ([] + Bytes(STATUS, s.reason) + []) == StartAtoms(s);
  }

  lemma ResponseText(version: string, code: string, reason: string)
    ensures "HTTP/" + (version + " ") + (code + " " + reason + CRLF) == "HTTP/" + version + " " + (code + " " + (reason + CRLF))
  {
  }
}
