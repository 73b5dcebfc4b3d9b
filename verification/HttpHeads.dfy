/** What the header of a message says about its framing, and what the parser makes of it. */
module HttpHeads {
  import opened CStrings
  import opened HttpStates
  import opened HttpReference
  import opened HttpRuns
  import opened HttpParser
  import opened HttpHeaders

  // ---------- the grammar ----------

  /** A connection option, with the spaces around it. */
  datatype Word = Word(before: string, text: string, after: string)

  /** A header line with its name, the blanks behind the colon, and its value; the options of a connection stand between
      commas. An ordinary value may go on over further lines. */
  datatype Header =
    | Options(name: string, blanks: string, words: seq<Word>)
    | Length(name: string, blanks: string, digits: string)
    | Coding(name: string, blanks: string, coding: string, spaces: string)
    | Switch(name: string, blanks: string, protocol: string)
    | Other(name: string, blanks: string, value: string)
    | Bare(name: string, blanks: string)

  predicate Spaces(s: string) {
    forall i :: 0 <= i < |s| ==> s[i] == ' '
  }

  predicate OptionChar(ch: char) {
    IsAlpha(ch) || IsNum(ch) || ch == '-'
  }

  predicate OptionChars(s: string) {
    forall i :: 0 <= i < |s| ==> OptionChar(s[i])
  }

  predicate GoodWord(w: Word) {
    Spaces(w.before) && w.text != "" && OptionChars(w.text) && Spaces(w.after)
  }

  predicate GoodWords(words: seq<Word>) {
    forall i :: 0 <= i < |words| ==> GoodWord(words[i])
  }

  predicate Printing(s: string) {
    forall i :: 0 <= i < |s| ==> ' ' <= s[i] <= '~'
  }

  predicate Numerical(s: string) {
    forall i :: 0 <= i < |s| ==> '0' <= s[i] <= '9'
  }

  predicate Begun(value: string) {
    value != "" && !IsBlank(value[0]) && ValueChars(value)
  }

  predicate WellFormed(h: Header) {
    && h.name != "" && NameChars(h.name) && Blanks(h.blanks)
    && match h
       case Options(name, _, words) =>
         (Lower(name) == "connection" || Lower(name) == "proxy-connection") && words != [] && GoodWords(words) && words[0].before == ""
       case Length(name, _, digits) => Lower(name) == "content-length" && digits != "" && Numerical(digits)
       case Coding(name, _, coding, spaces) =>
         && Lower(name) == "transfer-encoding" && Begun(coding) && Printing(coding) && coding[|coding| - 1] != ' ' && Spaces(spaces)
       case Switch(name, _, protocol) => Lower(name) == "upgrade" && Begun(protocol)
       case Other(name, _, value) =>
         && Begun(value) && Lower(name) != "connection" && Lower(name) != "proxy-connection" && Lower(name) != "content-length"
         && Lower(name) != "transfer-encoding" && Lower(name) != "upgrade"
       case Bare(_, _) => true
  }

  function WordText(w: Word): string {
    w.before + w.text + w.after
  }

  function WordsText(words: seq<Word>): string {
    if words == [] then "" else if |words| == 1 then WordText(words[0]) else WordText(words[0]) + "," + WordsText(words[1..])
  }

  /** The value, without the blanks in front of it. */
  function ValueText(h: Header): string {
    match h
    case Options(_, _, words) => WordsText(words)
    case Length(_, _, digits) => digits
    case Coding(_, _, coding, spaces) => coding + spaces
    case Switch(_, _, protocol) => protocol
    case Other(_, _, value) => value
    case Bare(_, _) => ""
  }

  function HeaderText(h: Header): string {
    h.name + ":" + (h.blanks + (ValueText(h) + CRLF))
  }

  // ---------- what it says ----------

  /** What a header says about the body and the connection. */
  datatype Framing = Framing(chunked: bool, keepAlive: bool, close: bool, agreed: bool, switch: bool, length: Option<nat>)

  const NOTHING: Framing := Framing(false, false, false, false, false, None)

  function Number(s: string): nat
    requires Numerical(s)
    decreases |s|
  {
    if s == "" then 0 else 10 * Number(s[..|s| - 1]) + (s[|s| - 1] as int - '0' as int)
  }

  /** The beginning of one of the three options, but not all of it. */
  predicate Cut(w: string) {
    w != "" && (w < "keep-alive" || w < "close" || w < "upgrade")
  }

  /** The options the parser hears. A cut option takes the comma right behind it for a letter, so that the next option is not heard. */
  function Heard(words: seq<Word>): set<string> {
    if words == [] then {}
    else if Cut(Lower(words[0].text)) && words[0].after == "" && |words| > 1 then {Lower(words[0].text)} + Heard(words[2..])
    else {Lower(words[0].text)} + Heard(words[1..])
  }

  /** The options the header names. */
  function Said(words: seq<Word>): set<string> {
    if words == [] then {} else {Lower(words[0].text)} + Said(words[1..])
  }

  /** The framing so far, and a line more. */
  function With(fr: Framing, h: Header): Framing
    requires WellFormed(h)
  {
    match h
    case Options(_, _, words) =>
      var heard := Heard(words);
      fr.(keepAlive := fr.keepAlive || "keep-alive" in heard, close := fr.close || "close" in heard, agreed := fr.agreed || "upgrade" in heard)
    case Length(_, _, digits) => fr.(length := Some(Number(digits)))
    case Coding(_, _, coding, _) => fr.(chunked := fr.chunked || Lower(coding) == "chunked")
    case Switch(_, _, _) => fr.(switch := true)
    case _ => fr
  }

  /** A length is taken if it is the only one and not too large. */
  predicate Taken(fr: Framing, h: Header)
    requires WellFormed(h)
  {
    h.Length? ==> fr.length == None && Number(h.digits) <= 18_446_744_073_709_551_609
  }

  // ---------- the fields ----------

  function FlagsOf(fr: Framing): Flags {
    Flags(fr.chunked, fr.keepAlive, fr.close, fr.agreed, false, fr.switch, false, fr.length.Some?)
  }

  /** In front of a header line, with the framing so far. */
  predicate AtHeader(f: Fields, fr: Framing) {
    AtLine(f) && Settled(f).flags == FlagsOf(fr) && f.contentLength == if fr.length.Some? then fr.length.value else ULLONG_MAX
  }

  /** What the header lines leave as it is. */
  predicate SameMessage(f: Fields, g: Fields) {
    && g.kind == f.kind && g.major == f.major && g.minor == f.minor && g.statusCode == f.statusCode && g.verb == f.verb
    && g.upgrade == f.upgrade && g.lenient == f.lenient
  }

  // ---------- options ----------

  lemma LoweredOption(ch: char)
    requires OptionChar(ch)
    ensures Lowered(ch) == LowerChar(ch) && OptionChar(LowerChar(ch)) && ch != ',' && ch != ' '
    ensures IsHeaderChar(ch) && ch != CR && ch != LF && !IsBlank(ch)
  {
  }

  /** The header state while the letters of an option are `w`. */
  function OptionTrack(w: string): HeaderState {
    if Begins(w, "keep-alive") then if |w| < 10 then MatchingConnectionKeepAlive else ConnectionKeepAlive
    else if Begins(w, "close") then if |w| < 5 then MatchingConnectionClose else ConnectionClose
    else if Begins(w, "upgrade") then if |w| < 7 then MatchingConnectionUpgrade else ConnectionUpgrade
    else MatchingConnectionToken
  }

  predicate InOption(f: Fields, w: string) {
    && f.state.HeaderValue? && w != "" && f.headerState == OptionTrack(w)
    && (Comparing(OptionTrack(w)) ==> f.index == |w| - 1)
  }

  lemma OptionsApart(w: string)
    requires w != ""
    ensures Begins(w, "keep-alive") ==> !Begins(w, "close") && !Begins(w, "upgrade")
    ensures Begins(w, "close") ==> !Begins(w, "upgrade")
    ensures Cut(w) <==> Comparing(OptionTrack(w))
  {
    assert Begins(w, "keep-alive") ==> w[0] == 'k';
    assert Begins(w, "close") ==> w[0] == 'c';
    assert Begins(w, "upgrade") ==> w[0] == 'u';
    CutIs(w, "keep-alive");
    CutIs(w, "close");
    CutIs(w, "upgrade");
  }

  lemma CutIs(w: string, name: string)
    ensures w < name <==> Begins(w, name) && |w| < |name|
  {
  }

  lemma OptionStep(f: Fields, ch: char, w: string)
    requires Legal(f) && InOption(f, w) && OptionChar(ch)
    ensures InOption(ValueChar(f, ch), w + [LowerChar(ch)])
    ensures var g := ValueChar(f, ch); g == f.(headerState := g.headerState, index := g.index)
  {
    var c := LowerChar(ch);
    LoweredOption(ch);
    BeginsStep(w, c, "keep-alive");
    BeginsStep(w, c, "close");
    BeginsStep(w, c, "upgrade");
    OptionsApart(w);
    OptionsApart(w + [c]);
  }

  lemma OptionCharGoes(f: Fields, ch: char, w: string) returns (g: Fields)
    requires Legal(f) && InOption(f, w) && OptionChar(ch) && !f.upgrade
    ensures Goes(f, [ch], g, [Byte(VALUE, ch)]) && InOption(g, w + [LowerChar(ch)])
    ensures g == f.(headerState := g.headerState, index := g.index)
  {
    LoweredOption(ch);
    OptionStep(f, ch, w);
    g := ValueChar(f, ch);
    GoesOne(f, ch);
  }

  lemma {:induction false} OptionRestGoes(f: Fields, w: string, s: string) returns (g: Fields)
    requires Legal(f) && InOption(f, w) && OptionChars(s) && !f.upgrade
    ensures Goes(f, s, g, Bytes(VALUE, s)) && InOption(g, w + Lower(s)) && g == f.(headerState := g.headerState, index := g.index)
    decreases |s|
  {
    if s == "" {
      GoesNothing(f);
      assert w + Lower(s) == w;
      g := f;
    } else {
      var h := OptionCharGoes(f, s[0], w);
      g := OptionRestGoes(h, w + [LowerChar(s[0])], s[1..]);
      GoesOn(f, s, h, [Byte(VALUE, s[0])], g, Bytes(VALUE, s[1..]));
      FirstByte(VALUE, s);
      LowerFirst(s);
      assert w + [LowerChar(s[0])] + Lower(s[1..]) == w + Lower(s);
    }
  }

  /** In front of an option: the first one of a line, or one behind a comma. */
  predicate AtOption(f: Fields) {
    && Legal(f) && !f.upgrade
    && ((f.state.HeaderValueDiscardWs? && f.headerState.Connection?)
        || (f.state.HeaderValue? && f.headerState.MatchingConnectionTokenStart? && f.index == 0))
  }

  lemma OptionFirst(ch: char)
    requires OptionChar(ch)
    ensures var c := LowerChar(ch);
      && OptionTrack([c]) == (if c == 'k' then MatchingConnectionKeepAlive else if c == 'c' then MatchingConnectionClose
                              else if c == 'u' then MatchingConnectionUpgrade else MatchingConnectionToken)
      && Token(c).Some?
  {
    assert "keep-alive"[..1] == ['k'] && "close"[..1] == ['c'] && "upgrade"[..1] == ['u'];
  }

  lemma OptionStartGoes(f: Fields, ch: char) returns (g: Fields)
    requires AtOption(f) && OptionChar(ch)
    ensures Goes(f, [ch], g, [Byte(VALUE, ch)]) && InOption(g, [LowerChar(ch)])
    ensures g == f.(state := HeaderValue, headerState := g.headerState, index := 0)
  {
    LoweredOption(ch);
    OptionFirst(ch);
    g := f.(state := HeaderValue, headerState := OptionTrack([LowerChar(ch)]), index := 0);
    if f.state.HeaderValue? {
      assert ValueChar(f, ch) == g;
    } else {
      assert ValueFirst(f, ch) == g;
    }
    GoesOne(f, ch);
  }

  lemma {:induction false} LeadingSpacesGo(f: Fields, s: string)
    requires AtOption(f) && f.state.HeaderValue? && Spaces(s)
    ensures Goes(f, s, f, Bytes(VALUE, s))
    decreases |s|
  {
    if s == "" {
      GoesNothing(f);
    } else {
      GoesOne(f, s[0]);
      LeadingSpacesGo(f, s[1..]);
      GoesOn(f, s, f, [Byte(VALUE, s[0])], f, Bytes(VALUE, s[1..]));
      FirstByte(VALUE, s);
    }
  }

  /** The header state behind an option and the spaces that follow it. */
  function Rested(w: string, after: string): HeaderState {
    if Cut(w) && after != "" then MatchingConnectionToken else OptionTrack(w)
  }

  /** Spaces behind a whole option, or behind any other word. */
  lemma {:induction false} TrailingSpacesGo(f: Fields, s: string)
    requires Legal(f) && f.state.HeaderValue? && !f.upgrade && Spaces(s)
    requires f.headerState.ConnectionKeepAlive? || f.headerState.ConnectionClose? || f.headerState.ConnectionUpgrade?
          || f.headerState.MatchingConnectionToken? || f.headerState.TransferEncodingChunked?
    ensures Goes(f, s, f, Bytes(VALUE, s))
    decreases |s|
  {
    if s == "" {
      GoesNothing(f);
    } else {
      GoesOne(f, s[0]);
      TrailingSpacesGo(f, s[1..]);
      GoesOn(f, s, f, [Byte(VALUE, s[0])], f, Bytes(VALUE, s[1..]));
      FirstByte(VALUE, s);
    }
  }

  lemma AfterOptionGoes(f: Fields, w: string, s: string) returns (g: Fields)
    requires Legal(f) && InOption(f, w) && !f.upgrade && Spaces(s)
    ensures Goes(f, s, g, Bytes(VALUE, s)) && g == f.(headerState := Rested(w, s), index := g.index)
  {
    OptionsApart(w);
    if s == "" {
      GoesNothing(f);
      g := f;
    } else if Cut(w) {
      g := f.(headerState := MatchingConnectionToken, index := f.index + 1);
      CutSpace(f, w, ' ');
      GoesOne(f, s[0]);
      TrailingSpacesGo(g, s[1..]);
      GoesOn(f, s, g, [Byte(VALUE, s[0])], g, Bytes(VALUE, s[1..]));
      FirstByte(VALUE, s);
    } else {
      TrailingSpacesGo(f, s);
      g := f;
    }
  }

  /** A character that is no letter ends the comparison, and is not looked at again. */
  lemma CutSpace(f: Fields, w: string, ch: char)
    requires Legal(f) && InOption(f, w) && Cut(w) && (ch == ' ' || ch == ',')
    ensures ValueChar(f, ch) == f.(headerState := MatchingConnectionToken, index := f.index + 1) && f.index + 1 <= 17
  {
    OptionsApart(w);
    assert Lowered(ch) == ch;
  }

  /** An option with the spaces around it. */
  lemma WordGoes(f: Fields, w: Word) returns (g: Fields)
    requires AtOption(f) && GoodWord(w) && (f.state.HeaderValueDiscardWs? ==> w.before == "")
    ensures Goes(f, WordText(w), g, Bytes(VALUE, WordText(w)))
    ensures g == f.(state := HeaderValue, headerState := Rested(Lower(w.text), w.after), index := g.index)
    ensures w.after == "" ==> InOption(g, Lower(w.text))
  {
    if f.state.HeaderValue? {
      LeadingSpacesGo(f, w.before);
    } else {
      GoesNothing(f);
    }
    var h1 := OptionStartGoes(f, w.text[0]);
    var h2 := OptionRestGoes(h1, [LowerChar(w.text[0])], w.text[1..]);
    LowerFirst(w.text);
    GoesOn(f, w.text, h1, [Byte(VALUE, w.text[0])], h2, Bytes(VALUE, w.text[1..]));
    FirstByte(VALUE, w.text);
    g := AfterOptionGoes(h2, Lower(w.text), w.after);
    GoesJoin(f, w.before, f, Bytes(VALUE, w.before), w.text, h2, Bytes(VALUE, w.text));
    GoesJoin(f, w.before + w.text, h2, Bytes(VALUE, w.before) + Bytes(VALUE, w.text), w.after, g, Bytes(VALUE, w.after));
    BytesJoin(VALUE, w.before, w.text);
    BytesJoin(VALUE, w.before + w.text, w.after);
  }

  // ---------- lists of options ----------

  function Plus(flags: Flags, heard: set<string>): Flags {
    flags.(keepAlive := flags.keepAlive || "keep-alive" in heard, close := flags.close || "close" in heard,
           connectionUpgrade := flags.connectionUpgrade || "upgrade" in heard)
  }

  /** What a line says once it is finished. */
  lemma OptionConcluded(f: Fields, w: string, after: string)
    requires w != "" && f.headerState == Rested(w, after)
    ensures Concluded(f) == f.(flags := Plus(f.flags, {w}))
  {
    OptionsApart(w);
    WholeName(w, "keep-alive");
    WholeName(w, "close");
    WholeName(w, "upgrade");
    CutIs(w, "keep-alive");
    CutIs(w, "close");
    CutIs(w, "upgrade");
  }

  lemma PlusTwice(flags: Flags, a: set<string>, b: set<string>)
    ensures Plus(Plus(flags, a), b) == Plus(flags, a + b)
  {
  }

  /** The comma behind an option that is not cut right there. */
  lemma CommaGoes(f: Fields, w: string, after: string) returns (g: Fields)
    requires Legal(f) && f.state.HeaderValue? && !f.upgrade && w != "" && f.headerState == Rested(w, after) && !(Cut(w) && after == "")
    ensures Goes(f, ",", g, Bytes(VALUE, ",")) && AtOption(g) && g.state.HeaderValue?
    ensures g == f.(flags := Plus(f.flags, {w}), headerState := MatchingConnectionTokenStart, index := 0)
  {
    OptionConcluded(f, w, after);
    OptionsApart(w);
    g := f.(flags := Plus(f.flags, {w}), headerState := MatchingConnectionTokenStart, index := 0);
    assert ValueChar(f, ',') == g;
    GoesOne(f, ',');
    assert Bytes(VALUE, ",") == [Byte(VALUE, ',')];
  }

  lemma CutCommaGoes(f: Fields, w: string) returns (g: Fields)
    requires Legal(f) && InOption(f, w) && !f.upgrade && Cut(w)
    ensures Goes(f, ",", g, Bytes(VALUE, ",")) && g == f.(headerState := MatchingConnectionToken, index := g.index)
    ensures Plus(f.flags, {w}) == f.flags
  {
    CutSpace(f, w, ',');
    g := ValueChar(f, ',');
    GoesOne(f, ',');
    assert Bytes(VALUE, ",") == [Byte(VALUE, ',')];
    CutIsNone(w);
  }

  lemma CutIsNone(w: string)
    requires Cut(w)
    ensures w != "keep-alive" && w != "close" && w != "upgrade"
  {
    OptionsApart(w);
    CutIs(w, "keep-alive");
    CutIs(w, "close");
    CutIs(w, "upgrade");
    WholeName(w, "keep-alive");
    WholeName(w, "close");
    WholeName(w, "upgrade");
  }

  /** What is not heard: everything up to the next comma. */
  lemma {:induction false} UnheardGoes(f: Fields, s: string)
    requires Legal(f) && f.state.HeaderValue? && f.headerState.MatchingConnectionToken? && !f.upgrade
    requires ValueChars(s) && ',' !in s
    ensures Goes(f, s, f, Bytes(VALUE, s))
    decreases |s|
  {
    if s == "" {
      GoesNothing(f);
    } else {
      assert s[0] in s;
      GoesOne(f, s[0]);
      UnheardGoes(f, s[1..]);
      GoesOn(f, s, f, [Byte(VALUE, s[0])], f, Bytes(VALUE, s[1..]));
      FirstByte(VALUE, s);
    }
  }

  lemma WordChars(w: Word)
    requires GoodWord(w)
    ensures ValueChars(WordText(w)) && ',' !in WordText(w)
  {
    forall i | 0 <= i < |w.text| ensures IsHeaderChar(w.text[i]) && w.text[i] != CR && w.text[i] != LF && w.text[i] != ',' {
      LoweredOption(w.text[i]);
    }
  }

  /** The whole list: the flags are those of the options that are heard. */
  lemma {:induction false} WordsGo(f: Fields, words: seq<Word>) returns (g: Fields)
    requires AtOption(f) && words != [] && GoodWords(words) && (f.state.HeaderValueDiscardWs? ==> words[0].before == "")
    ensures Goes(f, WordsText(words), g, Bytes(VALUE, WordsText(words))) && g.state.HeaderValue?
    ensures g == f.(state := HeaderValue, flags := g.flags, headerState := g.headerState, index := g.index)
    ensures Concluded(g) == g.(flags := Plus(f.flags, Heard(words)))
    decreases |words|
  {
    var w, first := Lower(words[0].text), WordText(words[0]);
    var h := WordGoes(f, words[0]);
    if |words| == 1 {
      g := h;
      OptionConcluded(h, w, words[0].after);
      assert Heard(words[1..]) == {} && {w} + {} == {w};
    } else if Cut(w) && words[0].after == "" {
      g := SwallowedGoes(f, words, h);
    } else {
      var c := CommaGoes(h, w, words[0].after);
      g := WordsGo(c, words[1..]);
      CommaJoin(f, first, h, c, WordsText(words[1..]), g);
      PlusTwice(f.flags, {w}, Heard(words[1..]));
    }
  }

  lemma CommaJoin(f: Fields, a: string, h: Fields, c: Fields, b: string, g: Fields)
    requires Goes(f, a, h, Bytes(VALUE, a)) && Goes(h, ",", c, Bytes(VALUE, ",")) && Goes(c, b, g, Bytes(VALUE, b))
    ensures Goes(f, a + "," + b, g, Bytes(VALUE, a + "," + b))
  {
    GoesJoin(f, a, h, Bytes(VALUE, a), ",", c, Bytes(VALUE, ","));
    BytesJoin(VALUE, a, ",");
    GoesJoin(f, a + ",", c, Bytes(VALUE, a + ","), b, g, Bytes(VALUE, b));
    BytesJoin(VALUE, a + ",", b);
  }

  /** Behind a cut option and its comma: the next option is not heard. */
  lemma {:induction false} SwallowedGoes(f: Fields, words: seq<Word>, h: Fields) returns (g: Fields)
    requires AtOption(f) && |words| > 1 && GoodWords(words) && Cut(Lower(words[0].text)) && words[0].after == ""
    requires Goes(f, WordText(words[0]), h, Bytes(VALUE, WordText(words[0]))) && InOption(h, Lower(words[0].text))
    requires h == f.(state := HeaderValue, headerState := h.headerState, index := h.index)
    ensures Goes(f, WordsText(words), g, Bytes(VALUE, WordsText(words))) && g.state.HeaderValue?
    ensures g == f.(state := HeaderValue, flags := g.flags, headerState := g.headerState, index := g.index)
    ensures Concluded(g) == g.(flags := Plus(f.flags, Heard(words)))
    decreases |words|, 0
  {
    var w, second := Lower(words[0].text), WordText(words[1]);
    var c := CutCommaGoes(h, w);
    WordChars(words[1]);
    UnheardGoes(c, second);
    if |words| == 2 {
      g := c;
      assert words[1..] == [words[1]] && words[2..] == [];
      assert WordsText(words) == WordText(words[0]) + "," + second;
      CommaJoin(f, WordText(words[0]), h, c, second, c);
      assert Heard(words) == {w} + {} && {w} + {} == {w};
    } else {
      var d := c.(headerState := MatchingConnectionTokenStart, index := 0);
      GoesOne(c, ',');
      assert Bytes(VALUE, ",") == [Byte(VALUE, ',')];
      g := WordsGo(d, words[2..]);
      CommaJoin(c, second, c, d, WordsText(words[2..]), g);
      assert words[1..][1..] == words[2..];
      assert WordsText(words[1..]) == second + "," + WordsText(words[2..]);
      CommaJoin(f, WordText(words[0]), h, c, WordsText(words[1..]), g);
      PlusTwice(f.flags, {w}, Heard(words[2..]));
    }
  }

  /** Without a cut option in front of a comma the parser hears what is said. */
  lemma {:induction false} HeardIsSaid(words: seq<Word>)
    requires forall i :: 0 <= i < |words| - 1 ==> !(Cut(Lower(words[i].text)) && words[i].after == "")
    ensures Heard(words) == Said(words)
    decreases |words|
  {
    if words != [] {
      HeardIsSaid(words[1..]);
    }
  }

  // ---------- codings ----------

  /** "chunked", and perhaps spaces behind it. */
  predicate Chunky(w: string) {
    |w| >= 7 && w[..7] == "chunked" && Spaces(w[7..])
  }

  function CodingTrack(w: string): HeaderState {
    if Begins(w, "chunked") && |w| < 7 then MatchingTransferEncodingChunked
    else if Chunky(w) then TransferEncodingChunked
    else General
  }

  predicate InCoding(f: Fields, w: string) {
    f.state.HeaderValue? && w != "" && f.headerState == CodingTrack(w) && (Begins(w, "chunked") && |w| < 7 ==> f.index == |w| - 1)
  }

  lemma ChunkyStep(w: string, c: char)
    ensures Chunky(w + [c]) <==> (w == "chunke" && c == 'd') || (Chunky(w) && c == ' ')
  {
    var v := w + [c];
    if |w| >= 7 {
      assert v[..7] == w[..7] && v[7..] == w[7..] + [c];
      assert v[7..][|w| - 7] == c;
      assert Spaces(v[7..]) ==> forall i :: 0 <= i < |w| - 7 ==> w[7..][i] == v[7..][i];
    } else if |w| == 6 {
      assert v[..7] == v && v[7..] == [] && v[..6] == w && v[6] == c;
      assert "chunked" == "chunke" + "d";
    }
  }

  /** Bit 0x20 makes a letter small, and no other printing character a letter of the word. */
  lemma LoweredPrinting(ch: char, x: char)
    requires ' ' <= ch <= '~' && 'a' <= x <= 'z'
    ensures Lowered(ch) == x <==> LowerChar(ch) == x
    ensures IsHeaderChar(ch) && ch != CR && ch != LF && (ch == ' ' <==> LowerChar(ch) == ' ')
  {
  }

  lemma CodingStep(f: Fields, ch: char, w: string)
    requires Legal(f) && InCoding(f, w) && ' ' <= ch <= '~'
    ensures InCoding(ValueChar(f, ch), w + [LowerChar(ch)])
    ensures var g := ValueChar(f, ch); g == f.(headerState := g.headerState, index := g.index)
  {
    var c := LowerChar(ch);
    LoweredPrinting(ch, if |w| < 7 then "chunked"[|w|] else 'd');
    BeginsStep(w, c, "chunked");
    ChunkyStep(w, c);
    assert |w| == 6 && Begins(w, "chunked") ==> w == "chunke" by {
      assert "chunked"[..6] == "chunke";
    }
  }

  lemma CodingFirst(ch: char)
    requires ' ' <= ch <= '~'
    ensures CodingTrack([LowerChar(ch)]) == if Lowered(ch) == 'c' then MatchingTransferEncodingChunked else General
    ensures Begins([LowerChar(ch)], "chunked") <==> Lowered(ch) == 'c'
  {
    LoweredPrinting(ch, 'c');
    assert "chunked"[..1] == ['c'];
  }

  lemma {:induction false} CodingRestGoes(f: Fields, w: string, s: string) returns (g: Fields)
    requires Legal(f) && InCoding(f, w) && Printing(s) && !f.upgrade
    ensures Goes(f, s, g, Bytes(VALUE, s)) && InCoding(g, w + Lower(s)) && g == f.(headerState := g.headerState, index := g.index)
    decreases |s|
  {
    if s == "" {
      GoesNothing(f);
      assert w + Lower(s) == w;
      g := f;
    } else {
      var h := CodingCharGoes(f, w, s[0]);
      g := CodingRestGoes(h, w + [LowerChar(s[0])], s[1..]);
      GoesOn(f, s, h, [Byte(VALUE, s[0])], g, Bytes(VALUE, s[1..]));
      FirstByte(VALUE, s);
      LowerFirst(s);
      assert w + [LowerChar(s[0])] + Lower(s[1..]) == w + Lower(s);
    }
  }

  lemma CodingCharGoes(f: Fields, w: string, ch: char) returns (g: Fields)
    requires Legal(f) && InCoding(f, w) && ' ' <= ch <= '~' && !f.upgrade
    ensures Goes(f, [ch], g, [Byte(VALUE, ch)]) && InCoding(g, w + [LowerChar(ch)])
    ensures g == f.(headerState := g.headerState, index := g.index)
  {
    LoweredPrinting(ch, 'c');
    CodingStep(f, ch, w);
    g := ValueChar(f, ch);
    GoesOne(f, ch);
  }

  /** A coding and the spaces behind it. */
  lemma CodingGoes(f: Fields, coding: string, spaces: string) returns (g: Fields)
    requires Legal(f) && f.state.HeaderValueDiscardWs? && f.headerState.TransferEncoding? && !f.upgrade
    requires Begun(coding) && Printing(coding) && coding[|coding| - 1] != ' ' && Spaces(spaces)
    ensures Goes(f, coding + spaces, g, Bytes(VALUE, coding + spaces)) && g.state.HeaderValue?
    ensures g == f.(state := HeaderValue, headerState := g.headerState, index := g.index)
    ensures Concluded(g) == if Lower(coding) == "chunked" then g.(flags := g.flags.(chunked := true)) else g
  {
    var text := coding + spaces;
    var h := ValueFirst(f, text[0]);
    CodingFirst(text[0]);
    LoweredPrinting(text[0], 'c');
    GoesOne(f, text[0]);
    g := CodingRestGoes(h, [LowerChar(text[0])], text[1..]);
    GoesOn(f, text, h, [Byte(VALUE, text[0])], g, Bytes(VALUE, text[1..]));
    FirstByte(VALUE, text);
    LowerFirst(text);
    ChunkyWhole(coding, spaces);
  }

  lemma ChunkyWhole(coding: string, spaces: string)
    requires coding != "" && Printing(coding) && coding[|coding| - 1] != ' ' && Spaces(spaces)
    ensures Chunky(Lower(coding + spaces)) <==> Lower(coding) == "chunked"
  {
    var w, v := Lower(coding), Lower(coding + spaces);
    assert v == w + spaces;
    LoweredPrinting(coding[|coding| - 1], 'd');
    if Chunky(v) && |w| > 7 {
      SpaceInside(v, w, spaces);
    } else if Chunky(v) && |w| < 7 {
      ShortOf(v, w, spaces);
    } else if Chunky(v) {
      assert w == v[..7];
    }
    if w == "chunked" {
      assert v[..7] == w && v[7..] == spaces;
    }
  }

  lemma SpaceInside(v: string, w: string, spaces: string)
    requires v == w + spaces && |w| > 7 && Spaces(v[7..])
    ensures w[|w| - 1] == ' '
  {
    assert v[7..][|w| - 8] == w[|w| - 1];
  }

  lemma ShortOf(v: string, w: string, spaces: string)
    requires v == w + spaces && |w| < 7 && Spaces(spaces) && |v| >= 7
    ensures v[..7] != "chunked"
  {
    assert v[6] == spaces[6 - |w|] == ' ' && "chunked"[6] == 'd';
    assert v[..7][6] == v[6];
  }

  // ---------- other values ----------

  /** A value of no importance stays one. */
  lemma {:induction false} OrdinaryRestGoes(f: Fields, s: string)
    requires Legal(f) && f.state.HeaderValue? && f.headerState.General? && !f.upgrade && ValueChars(s)
    ensures Goes(f, s, f, Bytes(VALUE, s))
    decreases |s|
  {
    if s == "" {
      GoesNothing(f);
    } else {
      GoesOne(f, s[0]);
      OrdinaryRestGoes(f, s[1..]);
      GoesOn(f, s, f, [Byte(VALUE, s[0])], f, Bytes(VALUE, s[1..]));
      FirstByte(VALUE, s);
    }
  }

  lemma OrdinaryGoes(f: Fields, s: string) returns (g: Fields)
    requires Legal(f) && f.state.HeaderValueDiscardWs? && !f.upgrade && FieldLegal(f.headerState) && Begun(s)
    requires RoleOf(f.headerState).General? || f.headerState.Upgrade?
    ensures Goes(f, s, g, Bytes(VALUE, s))
    ensures g == f.(state := HeaderValue, headerState := General, index := 0, flags := f.flags.(upgrade := f.flags.upgrade || f.headerState.Upgrade?))
  {
    g := ValueFirst(f, s[0]);
    GoesOne(f, s[0]);
    OrdinaryRestGoes(g, s[1..]);
    GoesOn(f, s, g, [Byte(VALUE, s[0])], g, Bytes(VALUE, s[1..]));
    FirstByte(VALUE, s);
  }

  // ---------- lengths ----------

  predicate AtLength(f: Fields) {
    Legal(f) && f.state.HeaderValueDiscardWs? && f.headerState.ContentLength? && !f.upgrade
  }

  /** A length of `n`, read as far as `s`. */
  predicate LengthRead(f: Fields, s: string, g: Fields, n: nat)
    requires AtLength(f)
  {
    if !f.flags.contentLength && n <= ULLONG_MAX - 6 then
      && Goes(f, s, g, Bytes(VALUE, s)) && g.headerState.ContentLength?
      && g == f.(state := HeaderValue, index := 0, flags := f.flags.(contentLength := true), contentLength := n)
    else Ended(Fold(f, s))
  }

  /** A length: its digits are added up, or the run ends among them. */
  lemma {:induction false} LengthGoes(f: Fields, s: string) returns (g: Fields)
    requires AtLength(f) && s != "" && Numerical(s)
    ensures LengthRead(f, s, g, Number(s))
    decreases |s|
  {
    var front, last := s[..|s| - 1], s[|s| - 1];
    if front == "" {
      g := FirstDigitGoes(f, last);
      assert s == [last];
      OneDigit(s);
    } else {
      var h := LengthGoes(f, front);
      g := LengthSnoc(f, front, h, Number(front), last);
      MoreDigit(s, front, last);
    }
  }

  lemma OneDigit(s: string)
    requires |s| == 1 && Numerical(s)
    ensures Number(s) == s[0] as int - '0' as int
  {
    assert s[..0] == "" && Number("") == 0;
  }

  lemma MoreDigit(s: string, front: string, last: char)
    requires s != "" && front == s[..|s| - 1] && last == s[|s| - 1] && Numerical(s)
    ensures s == front + [last] && Number(s) == 10 * Number(front) + (last as int - '0' as int)
  {
  }

  lemma LengthSnoc(f: Fields, front: string, h: Fields, n: nat, last: char) returns (g: Fields)
    requires AtLength(f) && LengthRead(f, front, h, n) && '0' <= last <= '9'
    ensures LengthRead(f, front + [last], g, 10 * n + (last as int - '0' as int))
  {
    FoldJoin(f, front, [last]);
    g := h;
    if !f.flags.contentLength && n <= ULLONG_MAX - 6 {
      g := NextDigitGoes(h, last, n);
      if g.contentLength <= ULLONG_MAX - 6 {
        GoesJoin(f, front, h, Bytes(VALUE, front), [last], g, [Byte(VALUE, last)]);
        assert Bytes(VALUE, front + [last]) == Bytes(VALUE, front) + [Byte(VALUE, last)];
      } else {
        GoesNoFurther(f, front, h, Bytes(VALUE, front), [last]);
      }
    }
  }

  lemma FirstDigitGoes(f: Fields, ch: char) returns (g: Fields)
    requires AtLength(f) && '0' <= ch <= '9'
    ensures LengthRead(f, [ch], g, ch as int - '0' as int)
  {
    g := ValueFirst(f, ch);
    if f.flags.contentLength {
      FoldStep(f, [ch]);
    } else {
      GoesOne(f, ch);
      assert Bytes(VALUE, [ch]) == [Byte(VALUE, ch)];
    }
  }

  lemma NextDigitGoes(f: Fields, ch: char, n: nat) returns (g: Fields)
    requires Legal(f) && f.state.HeaderValue? && f.headerState.ContentLength? && !f.upgrade && f.contentLength == n <= ULLONG_MAX - 6
    requires '0' <= ch <= '9'
    ensures var m := 10 * n + (ch as int - '0' as int);
      && g == f.(contentLength := m)
      && if m <= ULLONG_MAX - 6 then Goes(f, [ch], g, [Byte(VALUE, ch)]) else Ended(Fold(f, [ch]))
  {
    var m := 10 * n + (ch as int - '0' as int);
    g := f.(contentLength := m);
    if m <= ULLONG_MAX - 6 {
      assert ValueChar(f, ch) == g;
      GoesOne(f, ch);
    } else {
      assert !ValueChar(f, ch).errno.OK?;
      FoldStep(f, [ch]);
    }
  }

  // ---------- header lines ----------

  function HeaderAtoms(h: Header): seq<Atom> {
    Bytes(FIELD, h.name) + Bytes(VALUE, ValueText(h))
  }

  /** Behind the blanks of a line, with the framing of the lines before. */
  predicate AtValue(f: Fields, fr: Framing) {
    && Legal(f) && f.state.HeaderValueDiscardWs? && !f.upgrade && FieldLegal(f.headerState) && f.flags == FlagsOf(fr)
    && f.contentLength == if fr.length.Some? then fr.length.value else ULLONG_MAX
  }

  /** Behind a value, when its line ends. */
  predicate Valued(f: Fields, g: Fields, fr: Framing) {
    && Legal(g) && g.state.HeaderValue? && !g.upgrade && Concluded(g).flags == FlagsOf(fr) && SameMessage(f, g)
    && g.contentLength == if fr.length.Some? then fr.length.value else ULLONG_MAX
  }

  lemma ValueGoes(f: Fields, fr: Framing, h: Header) returns (g: Fields)
    requires AtValue(f, fr) && WellFormed(h) && !h.Bare? && RoleOf(f.headerState) == Role(Lower(h.name))
    ensures if Taken(fr, h) then Goes(f, ValueText(h), g, Bytes(VALUE, ValueText(h))) && Valued(f, g, With(fr, h))
            else Ended(Fold(f, ValueText(h)))
  {
    match h
    case Options(_, _, words) => g := WordsGo(f, words);
    case Length(_, _, digits) => g := LengthGoes(f, digits);
    case Coding(_, _, coding, spaces) => g := CodingGoes(f, coding, spaces);
    case Switch(_, _, protocol) => g := OrdinaryGoes(f, protocol);
    case Other(_, _, value) => g := OrdinaryGoes(f, value);
  }

  /** The name, the colon and the blanks. */
  lemma HeaderNamed(f: Fields, fr: Framing, h: Header) returns (named: Fields)
    requires AtHeader(f, fr) && WellFormed(h)
    ensures Goes(f, h.name + ":" + h.blanks, named, Bytes(FIELD, h.name)) && AtValue(named, fr) && SameMessage(f, named)
    ensures RoleOf(named.headerState) == Role(Lower(h.name))
  {
    named := NameGoes(f, h.name);
    BlanksGo(named, h.blanks);
    GoesJoin(f, h.name + ":", named, Bytes(FIELD, h.name), h.blanks, named, []);
    assert Bytes(FIELD, h.name) + [] == Bytes(FIELD, h.name);
  }

  /** The rest of a line leads to the next one with what the line says added, or is refused. */
  predicate LineRead(f: Fields, s: string, g: Fields, atoms: seq<Atom>, taken: bool, fr: Framing) {
    Legal(f) && if taken then Goes(f, s, g, atoms) && AtHeader(g, fr) && SameMessage(f, g) else Ended(Fold(f, s))
  }

  lemma HeaderRest(f: Fields, fr: Framing, h: Header, rest: string) returns (g: Fields)
    requires AtValue(f, fr) && WellFormed(h) && RoleOf(f.headerState) == Role(Lower(h.name)) && rest == ValueText(h) + CRLF
    ensures LineRead(f, rest, g, Bytes(VALUE, ValueText(h)), Taken(fr, h), With(fr, h))
  {
    if h.Bare? {
      g := Goto(f, HeaderValueDiscardLws);
      EmptyValueGoes(f);
      assert "" + CRLF == CRLF && Bytes(VALUE, "") == [];
    } else {
      var v := ValueGoes(f, fr, h);
      g := Goto(v, HeaderValueLws);
      if Taken(fr, h) {
        LineEndGoes(f, ValueText(h), v);
      } else {
        FoldJoin(f, ValueText(h), CRLF);
      }
    }
  }

  /** A header line leads to the next one with what it says added, or is refused. */
  lemma HeaderGoes(f: Fields, fr: Framing, h: Header) returns (g: Fields)
    requires AtHeader(f, fr) && WellFormed(h)
    ensures LineRead(f, HeaderText(h), g, HeaderAtoms(h), Taken(fr, h), With(fr, h))
  {
    var named := HeaderNamed(f, fr, h);
    var front, rest := h.name + ":" + h.blanks, ValueText(h) + CRLF;
    g := HeaderRest(named, fr, h, rest);
    if Taken(fr, h) {
      GoesJoin(f, front, named, Bytes(FIELD, h.name), rest, g, Bytes(VALUE, ValueText(h)));
    } else {
      GoesNoFurther(f, front, named, Bytes(FIELD, h.name), rest);
    }
    HeaderSplits(h.name, h.blanks, rest);
  }

  lemma HeaderSplits(name: string, blanks: string, rest: string)
    ensures name + ":" + (blanks + rest) == name + ":" + blanks + rest
  {
  }

  predicate AllWellFormed(hs: seq<Header>) {
    forall i :: 0 <= i < |hs| ==> WellFormed(hs[i])
  }

  function HeadersText(hs: seq<Header>): string {
    if hs == [] then "" else HeaderText(hs[0]) + HeadersText(hs[1..])
  }

  function HeadersAtoms(hs: seq<Header>): seq<Atom> {
    if hs == [] then [] else HeaderAtoms(hs[0]) + HeadersAtoms(hs[1..])
  }

  /** What all the lines say. */
  function Read(fr: Framing, hs: seq<Header>): Framing
    requires AllWellFormed(hs)
    decreases |hs|
  {
    if hs == [] then fr else Read(With(fr, hs[0]), hs[1..])
  }

  predicate AllTaken(fr: Framing, hs: seq<Header>)
    requires AllWellFormed(hs)
    decreases |hs|
  {
    hs == [] || (Taken(fr, hs[0]) && AllTaken(With(fr, hs[0]), hs[1..]))
  }

  lemma {:induction false} HeadersGo(f: Fields, fr: Framing, hs: seq<Header>) returns (g: Fields)
    requires AtHeader(f, fr) && AllWellFormed(hs)
    ensures LineRead(f, HeadersText(hs), g, HeadersAtoms(hs), AllTaken(fr, hs), Read(fr, hs))
    decreases |hs|
  {
    if hs == [] {
      GoesNothing(f);
      g := f;
    } else {
      var h := HeaderGoes(f, fr, hs[0]);
      if !Taken(fr, hs[0]) {
        FoldJoin(f, HeaderText(hs[0]), HeadersText(hs[1..]));
        g := f;
      } else {
        g := HeadersGo(h, With(fr, hs[0]), hs[1..]);
        if AllTaken(fr, hs) {
          GoesJoin(f, HeaderText(hs[0]), h, HeaderAtoms(hs[0]), HeadersText(hs[1..]), g, HeadersAtoms(hs[1..]));
        } else {
          GoesNoFurther(f, HeaderText(hs[0]), h, HeaderAtoms(hs[0]), HeadersText(hs[1..]));
        }
      }
    }
  }
}
