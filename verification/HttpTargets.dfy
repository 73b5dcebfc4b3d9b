/** Request targets (section 5.1.2 of RFC 2616): which texts parse_url_char lets through, both ways. */
module HttpTargets {
  import opened CStrings
  import opened HttpStates
  import opened HttpReference
  import opened HttpRuns
  import opened HttpParser

  /** A path, with what may stand behind it. */
  datatype Resource = Resource(path: string, query: Option<string>, fragment: Option<string>)

  datatype Target =
    | Local(resource: Resource)
    | Absolute(scheme: string, authority: string, resource: Resource)
    | Tunnel(authority: string, resource: Resource)

  predicate SchemeChar(c: char) {
    'a' <= c <= 'z' || 'A' <= c <= 'Z'
  }

  predicate AuthorityChar(c: char) {
    'a' <= c <= 'z' || 'A' <= c <= 'Z' || '0' <= c <= '9' || c in "-_.!~*'()%;:&=+$,[]@"
  }

  predicate FragmentChar(c: char) {
    '!' <= c <= '~'
  }

  predicate QueryChar(c: char) {
    FragmentChar(c) && c != '#'
  }

  predicate PathChar(c: char) {
    QueryChar(c) && c != '?'
  }

  predicate AllOf(s: string, p: char -> bool) {
    forall i :: 0 <= i < |s| ==> p(s[i])
  }

  /** No two at signs in a row, and none in front if there is one before. */
  predicate IsAuthority(s: string, at: bool) {
    s == "" || (AuthorityChar(s[0]) && !(at && s[0] == '@') && IsAuthority(s[1..], s[0] == '@'))
  }

  predicate WellTailed(r: Resource) {
    && (r.query.Some? ==> AllOf(r.query.value, QueryChar))
    && (r.fragment.Some? ==> AllOf(r.fragment.value, FragmentChar))
  }

  predicate IsResource(r: Resource) {
    AllOf(r.path, PathChar) && WellTailed(r)
  }

  /** Behind an authority: a path, a query or nothing. A fragment needs one of them in front of it. */
  predicate Behind(r: Resource) {
    && IsResource(r) && (r.path != "" ==> r.path[0] == '/')
    && (r.fragment.Some? ==> r.path != "" || r.query.Some?)
  }

  /** The target has the form that the method calls for: CONNECT wants a host, all others a path, an asterisk or a whole address. */
  predicate WellAimed(t: Target, tunnel: bool) {
    match t
    case Local(r) => !tunnel && IsResource(r) && r.path != "" && (r.path[0] == '/' || r.path[0] == '*')
    case Absolute(scheme, authority, r) =>
      !tunnel && scheme != "" && AllOf(scheme, SchemeChar) && IsAuthority(authority, false) && Behind(r)
      && (authority != "" || r.path != "" || r.query.Some?)
    case Tunnel(authority, r) =>
      tunnel && IsAuthority(authority, false) && Behind(r) && (authority != "" || r.path != "" || r.query.Some?)
  }

  function FragmentText(r: Resource): string {
    if r.fragment.Some? then "#" + r.fragment.value else ""
  }

  function QueryText(r: Resource): string {
    (if r.query.Some? then "?" + r.query.value else "") + FragmentText(r)
  }

  function ResourceText(r: Resource): string {
    r.path + QueryText(r)
  }

  function TargetText(t: Target): string {
    match t
    case Local(r) => ResourceText(r)
    case Absolute(scheme, authority, r) => scheme + ("://" + (authority + ResourceText(r)))
    case Tunnel(authority, r) => authority + ResourceText(r)
  }

  // ---------- runs of parse_url_char ----------

  function Run(s: State, text: string): State
    decreases |text|
  {
    if text == "" then s else Run(ParseUrlChar(s, text[0]), text[1..])
  }

  /** The state of the first character. */
  function From(tunnel: bool): State {
    if tunnel then ReqServerStart else ReqSpacesBeforeUrl
  }

  /** A URL may end here. */
  predicate Closed(s: State) {
    UrlState(s) && !UrlOpen(s)
  }

  lemma {:induction false} DeadRun(text: string)
    ensures Run(Dead, text) == Dead
  {
    if text != "" {
      DeadRun(text[1..]);
    }
  }

  lemma {:induction false} RunJoin(s: State, a: string, b: string)
    ensures Run(s, a + b) == Run(Run(s, a), b)
    decreases |a|
  {
    if a == "" {
      assert a + b == b;
    } else {
      assert (a + b)[1..] == a[1..] + b;
      RunJoin(ParseUrlChar(s, a[0]), a[1..], b);
    }
  }

  lemma RunOne(s: State, ch: char)
    ensures Run(s, [ch]) == ParseUrlChar(s, ch)
  {
    assert [ch][1..] == "";
  }

  // ---------- every target goes through ----------

  lemma {:induction false} SchemeRun(text: string)
    requires AllOf(text, SchemeChar)
    ensures Run(ReqSchema, text) == ReqSchema
    decreases |text|
  {
    if text != "" {
      SchemeRun(text[1..]);
    }
  }

  predicate Server(s: State) {
    s.ReqServerStart? || s.ReqServer? || s.ReqServerWithAt?
  }

  lemma {:induction false} AuthorityRun(s: State, text: string)
    requires Server(s) && IsAuthority(text, s.ReqServerWithAt?)
    ensures Server(Run(s, text)) && (text != "" ==> !Run(s, text).ReqServerStart?) && (text == "" ==> Run(s, text) == s)
    decreases |text|
  {
    if text != "" {
      AuthorityRun(ParseUrlChar(s, text[0]), text[1..]);
    }
  }

  lemma {:induction false} PathRun(text: string)
    requires AllOf(text, PathChar)
    ensures Run(ReqPath, text) == ReqPath
    decreases |text|
  {
    if text != "" {
      PathRun(text[1..]);
    }
  }

  predicate Query(s: State) {
    s.ReqQueryStringStart? || s.ReqQueryString?
  }

  lemma {:induction false} QueryRun(s: State, text: string)
    requires Query(s) && AllOf(text, QueryChar)
    ensures Query(Run(s, text))
    decreases |text|
  {
    if text != "" {
      QueryRun(ParseUrlChar(s, text[0]), text[1..]);
    }
  }

  predicate Fragment(s: State) {
    s.ReqFragmentStart? || s.ReqFragment?
  }

  lemma {:induction false} FragmentRun(s: State, text: string)
    requires Fragment(s) && AllOf(text, FragmentChar)
    ensures Fragment(Run(s, text))
    decreases |text|
  {
    if text != "" {
      FragmentRun(ParseUrlChar(s, text[0]), text[1..]);
    }
  }

  lemma FragmentPart(s: State, r: Resource)
    requires WellTailed(r) && Closed(s) && (r.fragment.Some? ==> s.ReqPath? || Query(s))
    ensures Closed(Run(s, FragmentText(r)))
  {
    if r.fragment.Some? {
      RunJoin(s, "#", r.fragment.value);
      RunOne(s, '#');
      FragmentRun(ReqFragmentStart, r.fragment.value);
    }
  }

  lemma QueryPart(s: State, r: Resource)
    requires WellTailed(r) && (s.ReqPath? || Server(s)) && (r.query == None ==> Closed(s))
    requires r.fragment.Some? ==> s.ReqPath? || r.query.Some?
    ensures Closed(Run(s, QueryText(r)))
  {
    if r.query == None {
      assert "" + FragmentText(r) == FragmentText(r);
      FragmentPart(s, r);
    } else {
      QueryMark(s, r.query.value);
      RunJoin(s, "?" + r.query.value, FragmentText(r));
      FragmentPart(Run(s, "?" + r.query.value), r);
    }
  }

  lemma QueryMark(s: State, query: string)
    requires (s.ReqPath? || Server(s)) && AllOf(query, QueryChar)
    ensures Query(Run(s, "?" + query))
  {
    RunJoin(s, "?", query);
    RunOne(s, '?');
    QueryRun(ReqQueryStringStart, query);
  }

  lemma ResourcePart(s: State, r: Resource)
    requires IsResource(r) && if s.ReqSpacesBeforeUrl? then r.path != "" && (r.path[0] == '/' || r.path[0] == '*') else Server(s) && Behind(r)
    requires s.ReqServerStart? ==> r.path != "" || r.query.Some?
    ensures Closed(Run(s, ResourceText(r)))
  {
    if r.path == "" {
      assert "" + QueryText(r) == QueryText(r);
      QueryPart(s, r);
    } else {
      RunJoin(s, r.path, QueryText(r));
      PathRun(r.path[1..]);
      QueryPart(ReqPath, r);
    }
  }

  lemma HostPart(s: State, authority: string, r: Resource)
    requires s.ReqServerStart? && IsAuthority(authority, false) && Behind(r) && (authority != "" || r.path != "" || r.query.Some?)
    ensures Closed(Run(s, authority + ResourceText(r)))
  {
    RunJoin(s, authority, ResourceText(r));
    AuthorityRun(s, authority);
    ResourcePart(Run(s, authority), r);
  }

  lemma SchemePart(scheme: string, rest: string)
    requires scheme != "" && AllOf(scheme, SchemeChar)
    ensures Run(ReqSpacesBeforeUrl, scheme + ("://" + rest)) == Run(ReqServerStart, rest)
  {
    RunJoin(ReqSpacesBeforeUrl, scheme, "://" + rest);
    SchemeRun(scheme[1..]);
    RunJoin(ReqSchema, "://", rest);
    assert "://"[1..] == "//" && "//"[1..] == "/" && "/"[1..] == "";
    assert Run(ReqSchemaSlashSlash, "/") == ReqServerStart;
    assert Run(ReqSchemaSlash, "//") == ReqServerStart;
  }

  lemma TargetRun(t: Target, tunnel: bool)
    requires WellAimed(t, tunnel)
    ensures Closed(Run(From(tunnel), TargetText(t)))
  {
    match t
    case Local(r) => ResourcePart(ReqSpacesBeforeUrl, r);
    case Absolute(scheme, authority, r) =>
      SchemePart(scheme, authority + ResourceText(r));
      HostPart(ReqServerStart, authority, r);
    case Tunnel(authority, r) => HostPart(ReqServerStart, authority, r);
  }

  // ---------- nothing else does ----------

  lemma {:induction false} FragmentOnly(s: State, text: string)
    requires Fragment(s) && Closed(Run(s, text))
    ensures AllOf(text, FragmentChar)
    decreases |text|
  {
    if text != "" {
      var next := ParseUrlChar(s, text[0]);
      DeadRun(text[1..]);
      FragmentOnly(next, text[1..]);
      assert text == [text[0]] + text[1..];
    }
  }

  lemma {:induction false} QueryOnly(s: State, text: string) returns (query: string, fragment: Option<string>)
    requires Query(s) && Closed(Run(s, text))
    ensures text == query + (if fragment.Some? then "#" + fragment.value else "") && AllOf(query, QueryChar)
    ensures fragment.Some? ==> AllOf(fragment.value, FragmentChar)
    decreases |text|
  {
    if text == "" {
      return "", None;
    }
    var next := ParseUrlChar(s, text[0]);
    DeadRun(text[1..]);
    assert text == [text[0]] + text[1..];
    if Query(next) {
      query, fragment := QueryOnly(next, text[1..]);
      query := [text[0]] + query;
    } else {
      FragmentOnly(next, text[1..]);
      query, fragment := "", Some(text[1..]);
    }
  }

  /** Behind a path or an authority. */
  lemma TailOnly(s: State, text: string) returns (r: Resource)
    requires (s.ReqPath? || Server(s)) && Closed(Run(s, text))
    requires text != "" ==> text[0] == '?' || (s.ReqPath? && text[0] == '#')
    ensures r.path == "" && text == QueryText(r) && WellTailed(r) && (s.ReqServerStart? ==> r.query.Some?)
    ensures r.fragment.Some? ==> s.ReqPath? || r.query.Some?
  {
    if text == "" {
      r := Resource("", None, None);
    } else {
      assert text == [text[0]] + text[1..];
      if text[0] == '?' {
        var query, fragment := QueryOnly(ReqQueryStringStart, text[1..]);
        r := Resource("", Some(query), fragment);
        TailText(query, FragmentText(r), text);
      } else {
        FragmentOnly(ReqFragmentStart, text[1..]);
        r := Resource("", None, Some(text[1..]));
      }
    }
  }

  lemma TailText(query: string, fragment: string, text: string)
    requires text == "?" + (query + fragment)
    ensures text == "?" + query + fragment
  {
  }

  lemma {:induction false} PathOnly(text: string) returns (r: Resource)
    requires Closed(Run(ReqPath, text))
    ensures text == ResourceText(r) && IsResource(r)
    decreases |text|
  {
    if text == "" || text[0] == '?' || text[0] == '#' {
      r := TailOnly(ReqPath, text);
      assert "" + text == text;
    } else {
      DeadRun(text[1..]);
      var rest := PathOnly(text[1..]);
      r := rest.(path := [text[0]] + rest.path);
      Prepended(text, text[0], rest.path, QueryText(rest));
    }
  }

  lemma Prepended(text: string, ch: char, front: string, rest: string)
    requires text != "" && text[0] == ch && text[1..] == front + rest
    ensures text == [ch] + front + rest
  {
    assert text == [ch] + text[1..];
  }

  lemma ResourceOnly(text: string) returns (r: Resource)
    requires text != "" && Closed(Run(ReqPath, text[1..])) && PathChar(text[0])
    ensures text == ResourceText(r) && IsResource(r) && r.path != "" && r.path[0] == text[0]
  {
    var rest := PathOnly(text[1..]);
    r := rest.(path := [text[0]] + rest.path);
    Prepended(text, text[0], rest.path, QueryText(rest));
  }

  lemma HostChar(s: State, text: string)
    requires Server(s) && text != "" && text[0] != '?' && text[0] != '/' && Closed(Run(s, text))
    ensures var next := ParseUrlChar(s, text[0]);
      && Server(next) && !next.ReqServerStart? && Closed(Run(next, text[1..])) && (next.ReqServerWithAt? <==> text[0] == '@')
      && AuthorityChar(text[0]) && !(s.ReqServerWithAt? && text[0] == '@')
  {
    DeadRun(text[1..]);
  }

  lemma {:induction false} HostOnly(s: State, text: string) returns (authority: string, r: Resource)
    requires Server(s) && Closed(Run(s, text))
    ensures text == authority + ResourceText(r) && IsAuthority(authority, s.ReqServerWithAt?) && Behind(r)
    ensures s.ReqServerStart? ==> authority != "" || r.path != "" || r.query.Some?
    decreases |text|
  {
    if text == "" || text[0] == '?' {
      r := TailOnly(s, text);
      authority := "";
      assert "" + ("" + text) == text;
    } else if text[0] == '/' {
      r := ResourceOnly(text);
      authority := "";
      assert "" + text == text;
    } else {
      HostChar(s, text);
      authority, r := HostOnly(ParseUrlChar(s, text[0]), text[1..]);
      Prepended(text, text[0], authority, ResourceText(r));
      authority := [text[0]] + authority;
    }
  }

  lemma {:induction false} SchemeOnly(text: string) returns (scheme: string, rest: string)
    requires Closed(Run(ReqSchema, text))
    ensures text == scheme + ("://" + rest) && AllOf(scheme, SchemeChar) && Closed(Run(ReqServerStart, rest))
    decreases |text|
  {
    assert text != "";
    DeadRun(text[1..]);
    if text[0] == ':' {
      rest := SlashesOnly(text);
      scheme := "";
      assert "" + text == text;
    } else {
      scheme, rest := SchemeOnly(text[1..]);
      Prepended(text, text[0], scheme, "://" + rest);
      scheme := [text[0]] + scheme;
    }
  }

  lemma SlashesOnly(text: string) returns (rest: string)
    requires text != "" && text[0] == ':' && Closed(Run(ReqSchema, text))
    ensures text == "://" + rest && Closed(Run(ReqServerStart, rest))
  {
    var a := text[1..];
    assert Run(ReqSchema, text) == Run(ReqSchemaSlash, a);
    assert a != "";
    var b := a[1..];
    DeadRun(b);
    assert a[0] == '/' && Run(ReqSchemaSlash, a) == Run(ReqSchemaSlashSlash, b);
    assert b != "";
    rest := b[1..];
    DeadRun(rest);
    assert b[0] == '/';
    assert text == [text[0]] + ([a[0]] + ([b[0]] + rest));
  }

  /** What the URL states let through is a target. */
  lemma TargetOnly(text: string, tunnel: bool) returns (t: Target)
    requires Closed(Run(From(tunnel), text))
    ensures WellAimed(t, tunnel) && TargetText(t) == text
  {
    if tunnel {
      var authority, r := HostOnly(ReqServerStart, text);
      t := Tunnel(authority, r);
    } else {
      assert text != "";
      DeadRun(text[1..]);
      if text[0] == '/' || text[0] == '*' {
        var r := ResourceOnly(text);
        t := Local(r);
      } else {
        var scheme, rest := SchemeOnly(text[1..]);
        var authority, r := HostOnly(ReqServerStart, rest);
        t := Absolute([text[0]] + scheme, authority, r);
        Prepended(text, text[0], scheme, "://" + rest);
      }
    }
  }

  // ---------- the parser ----------

  /** No blank and no line break. */
  predicate Solid(text: string) {
    forall i :: 0 <= i < |text| ==> text[i] != ' ' && text[i] != CR && text[i] != LF
  }

  lemma {:induction false} RunSolid(s: State, text: string)
    requires !Run(s, text).Dead?
    ensures Solid(text)
    decreases |text|
  {
    if text != "" {
      DeadRun(text[1..]);
      RunSolid(ParseUrlChar(s, text[0]), text[1..]);
    }
  }

  lemma {:induction false} UrlGoes(f: Fields, text: string)
    requires Legal(f) && UrlState(f.state) && !f.upgrade && Solid(text)
    ensures var last := Run(f.state, text);
      if last.Dead? then Ended(Fold(f, text)) else UrlState(last) && Goes(f, text, Goto(f, last), Bytes(URL, text))
    decreases |text|
  {
    if text == "" {
      GoesNothing(f);
    } else {
      var next := ParseUrlChar(f.state, text[0]);
      if next.Dead? {
        DeadRun(text[1..]);
        FoldStep(f, text);
      } else {
        UrlGoesOn(f, next, text);
        UrlGoes(Goto(f, next), text[1..]);
        FirstThen(f, Goto(f, next), text, Run(next, text[1..]));
      }
    }
  }

  lemma UrlGoesOn(f: Fields, next: State, text: string)
    requires Legal(f) && UrlState(f.state) && !f.upgrade && Solid(text) && text != "" && next == ParseUrlChar(f.state, text[0]) && !next.Dead?
    ensures Goes(f, [text[0]], Goto(f, next), [Byte(URL, text[0])]) && UrlState(next)
  {
    assert UrlTurn(f, text[0]) == Gives(Goto(f, next), URL, text[0]);
    GoesOne(f, text[0]);
  }

  lemma FirstThen(f: Fields, g: Fields, text: string, last: State)
    requires text != "" && Goes(f, [text[0]], g, [Byte(URL, text[0])])
    requires if last.Dead? then Ended(Fold(g, text[1..])) else Goes(g, text[1..], Goto(g, last), Bytes(URL, text[1..]))
    ensures if last.Dead? then Ended(Fold(f, text)) else Goes(f, text, Goto(g, last), Bytes(URL, text))
  {
    assert [text[0]] + text[1..] == text;
    if last.Dead? {
      GoesNoFurther(f, [text[0]], g, [Byte(URL, text[0])], text[1..]);
    } else {
      GoesOn(f, text, g, [Byte(URL, text[0])], Goto(g, last), Bytes(URL, text[1..]));
      FirstByte(URL, text);
    }
  }

  /** In front of a target. */
  predicate AtTarget(f: Fields) {
    Legal(f) && f.state.ReqSpacesBeforeUrl? && !f.upgrade
  }

  lemma WholeUrlGoes(f: Fields, text: string)
    requires AtTarget(f) && text != "" && Solid(text)
    ensures var last := Run(From(f.verb.CONNECT?), text);
      if last.Dead? then Ended(Fold(f, text)) else UrlState(last) && Goes(f, text, Goto(f, last), Bytes(URL, text))
  {
    var next := ParseUrlChar(From(f.verb.CONNECT?), text[0]);
    if next.Dead? {
      DeadRun(text[1..]);
      FoldStep(f, text);
    } else {
      assert Next(f, text[0]) == Gives(Goto(f, next), URL, text[0]);
      GoesOne(f, text[0]);
      UrlGoes(Goto(f, next), text[1..]);
      FirstThen(f, Goto(f, next), text, Run(next, text[1..]));
    }
  }

  /** A target is handed on as it stands. */
  lemma TargetGoes(f: Fields, t: Target) returns (g: Fields)
    requires AtTarget(f) && WellAimed(t, f.verb.CONNECT?)
    ensures Goes(f, TargetText(t), g, Bytes(URL, TargetText(t))) && g == Goto(f, g.state) && Closed(g.state)
  {
    var text := TargetText(t);
    TargetRun(t, f.verb.CONNECT?);
    RunSolid(From(f.verb.CONNECT?), text);
    WholeUrlGoes(f, text);
    g := Goto(f, Run(From(f.verb.CONNECT?), text));
  }

  lemma TargetEndGoes(f: Fields)
    requires Legal(f) && Closed(f.state) && !f.upgrade
    ensures Goes(f, " ", Goto(f, ReqHttpStart), [])
  {
    assert UrlTurn(f, ' ') == Silent(Goto(f, ReqHttpStart));
    GoesOne(f, ' ');
  }

  /** The target is taken if and only if a URL may end where it ends. */
  lemma ClosedIff(f: Fields, text: string)
    requires AtTarget(f) && text != "" && Solid(text)
    ensures !Ended(Fold(f, text + " ")) <==> Closed(Run(From(f.verb.CONNECT?), text))
  {
    var last := Run(From(f.verb.CONNECT?), text);
    WholeUrlGoes(f, text);
    if last.Dead? {
      FoldJoin(f, text, " ");
    } else if Closed(last) {
      TargetEndGoes(Goto(f, last));
      GoesJoin(f, text, Goto(f, last), Bytes(URL, text), " ", Goto(f, ReqHttpStart), []);
    } else {
      FoldOne(Goto(f, last), ' ');
      GoesNoFurther(f, text, Goto(f, last), Bytes(URL, text), " ");
    }
  }

  /** Exactly the targets are accepted in front of a blank. */
  lemma TargetIff(f: Fields, text: string)
    requires AtTarget(f) && text != "" && Solid(text)
    ensures !Ended(Fold(f, text + " ")) <==> exists t :: WellAimed(t, f.verb.CONNECT?) && TargetText(t) == text
  {
    ClosedIff(f, text);
    if t :| WellAimed(t, f.verb.CONNECT?) && TargetText(t) == text {
      TargetRun(t, f.verb.CONNECT?);
    }
    if Closed(Run(From(f.verb.CONNECT?), text)) {
      var t := TargetOnly(text, f.verb.CONNECT?);
    }
  }
}
