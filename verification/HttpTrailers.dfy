/** The trailer of a chunked body (section 3.6.1 of RFC 2616): header lines behind the last chunk. */
module HttpTrailers {
  import opened CStrings
  import opened HttpStates
  import opened HttpReference
  import opened HttpRuns
  import opened HttpParser
  import opened HttpHeaders

  /** A header line, and the lines that it is folded over. */
  datatype Trailer = Trailer(name: string, value: string, folds: seq<string>)

  function Line(t: Trailer): string {
    t.name + ":" + Text(t.value, t.folds)
  }

  /** The value, on one line or several. */
  function Text(value: string, folds: seq<string>): string {
    value + CRLF + Folded(folds)
  }

  function Folded(folds: seq<string>): string {
    if folds == [] then "" else folds[0] + CRLF + Folded(folds[1..])
  }

  function Lines(ts: seq<Trailer>): string {
    if ts == [] then "" else Line(ts[0]) + Lines(ts[1..])
  }

  /** The trailer, and the empty line that ends the body. */
  function TrailerText(ts: seq<Trailer>): string {
    Lines(ts) + CRLF
  }

  /** A name is a token; the lines that a value goes on over begin with a blank. */
  predicate Shaped(t: Trailer) {
    t.name != "" && NameChars(t.name) && ValueChars(t.value) && FoldsShaped(t.folds)
  }

  predicate FoldsShaped(folds: seq<string>) {
    forall i :: 0 <= i < |folds| ==> FoldShaped(folds[i])
  }

  predicate FoldShaped(fold: string) {
    fold != "" && IsBlank(fold[0]) && ValueChars(fold)
  }

  /** A value without the blanks in front of it. */
  function Stripped(s: string): (r: string)
    ensures r != "" ==> !IsBlank(r[0])
  {
    if s != "" && IsBlank(s[0]) then Stripped(s[1..]) else s
  }

  function Joined(folds: seq<string>): string {
    if folds == [] then "" else folds[0] + Joined(folds[1..])
  }

  /** The value as it is told: blanks are left out in front of it, and lines with nothing else; behind that the folds stay as
      they are. */
  function Value(value: string, folds: seq<string>): string
    decreases |folds|
  {
    if Stripped(value) != "" then Stripped(value) + Joined(folds)
    else if folds == [] then ""
    else Value(folds[0], folds[1..])
  }

  function ValueOf(t: Trailer): string {
    Value(t.value, t.folds)
  }

  // ---------- which trailers the code takes ----------

  predicate Digits(s: string) {
    forall i :: 0 <= i < |s| ==> IsNum(s[i]) || s[i] == ' '
  }

  /** The number that the digits stand for, behind `v`; spaces do not count. */
  function Decimal(v: nat, s: string): (n: nat)
    requires Digits(s)
    ensures n >= v
    decreases |s|
  {
    if s == "" then v else Decimal(if s[0] == ' ' then v else 10 * v + FirstDigit(s[0]), s[1..])
  }

  const LENGTH_NAME: string := "content-length"

  /** The line gives a length. */
  predicate GivesLength(t: Trailer) {
    Lower(t.name) == LENGTH_NAME && ValueOf(t) != ""
  }

  predicate LengthValue(s: string) {
    s != "" && IsNum(s[0]) && Digits(s) && Decimal(0, s) <= ULLONG_MAX - 6
  }

  /** The length stands in one line, with nothing but blanks in front of it and nothing behind. */
  predicate LengthText(value: string, folds: seq<string>)
    decreases |folds|
  {
    if Stripped(value) != "" then LengthValue(Stripped(value)) && folds == []
    else folds != [] && LengthText(folds[0], folds[1..])
  }

  /** Only a Content-Length can be refused: a second one, or one that is folded, not a number or too large. `seen`: there was
      one. */
  predicate Fits(ts: seq<Trailer>, seen: bool) {
    ts == [] || (LineFits(ts[0], seen) && Fits(ts[1..], seen || GivesLength(ts[0])))
  }

  predicate LineFits(t: Trailer, seen: bool) {
    GivesLength(t) ==> !seen && LengthText(t.value, t.folds)
  }

  /** What the callbacks are told about the trailer. */
  function LineAtoms(t: Trailer): seq<Atom> {
    Bytes(FIELD, t.name) + Bytes(VALUE, ValueOf(t))
  }

  function TrailerAtoms(ts: seq<Trailer>): seq<Atom> {
    if ts == [] then [] else LineAtoms(ts[0]) + TrailerAtoms(ts[1..])
  }

  // ---------- lines ----------

  /** In front of a line of the trailer. */
  predicate AtTrailer(f: Fields) {
    AtLine(f) && f.flags.trailing
  }

  /** `g` differs from `f` in nothing that the trailer keeps. */
  predicate Keeps(f: Fields, g: Fields) {
    g.flags.trailing == f.flags.trailing && g.flags.contentLength == f.flags.contentLength && g.upgrade == f.upgrade
  }

  // ---------- values ----------

  lemma {:induction false} StripSplit(s: string) returns (blanks: string)
    ensures s == blanks + Stripped(s) && Blanks(blanks)
    ensures ValueChars(s) ==> ValueChars(Stripped(s))
    decreases |s|
  {
    blanks := "";
    if s != "" && IsBlank(s[0]) {
      var rest := StripSplit(s[1..]);
      blanks := [s[0]] + rest;
      assert s == [s[0]] + s[1..];
    }
  }

  /** A value that is no length goes through, whatever it says. */
  lemma {:induction false} ValueRestGoes(f: Fields, s: string) returns (g: Fields)
    requires Legal(f) && f.state.HeaderValue? && !f.headerState.ContentLength? && !f.upgrade && ValueChars(s)
    ensures Goes(f, s, g, Bytes(VALUE, s)) && g.state.HeaderValue? && !g.headerState.ContentLength? && Keeps(f, g)
    decreases |s|
  {
    if s == "" {
      GoesNothing(f);
      g := f;
    } else {
      var h := ValueCharGoes(f, s[0]);
      g := ValueRestGoes(h, s[1..]);
      GoesOn(f, s, h, [Byte(VALUE, s[0])], g, Bytes(VALUE, s[1..]));
      FirstByte(VALUE, s);
    }
  }

  lemma ValueCharGoes(f: Fields, ch: char) returns (g: Fields)
    requires Legal(f) && f.state.HeaderValue? && !f.headerState.ContentLength? && !f.upgrade && IsHeaderChar(ch) && ch != CR && ch != LF
    ensures Goes(f, [ch], g, [Byte(VALUE, ch)]) && g.state.HeaderValue? && !g.headerState.ContentLength? && Keeps(f, g)
  {
    g := ValueChar(f, ch);
    ValueCharPlain(f, ch);
    GoesOne(f, ch);
  }

  lemma ValueCharPlain(f: Fields, ch: char)
    requires f.errno.OK? && f.state.HeaderValue? && !f.headerState.ContentLength?
    ensures var g := ValueChar(f, ch); g.errno.OK? && g.state.HeaderValue? && !g.headerState.ContentLength? && Keeps(f, g)
  {
    var h := f.headerState;
    if h.ConnectionKeepAlive? || h.ConnectionClose? || h.ConnectionUpgrade? {
      TokenEndPlain(f, ch);
    } else {
      MatchPlain(f, ch);
    }
  }

  lemma TokenEndPlain(f: Fields, ch: char)
    requires !f.headerState.ContentLength?
    ensures var g := TokenEndChar(f, ch); g.errno == f.errno && g.state == f.state && !g.headerState.ContentLength? && Keeps(f, g)
  {
    ConcludedKeeps(f, Concluded(f));
  }

  /** A finished header sets flags of its own only. */
  lemma ConcludedKeeps(f: Fields, g: Fields)
    requires g == Concluded(f)
    ensures g.errno == f.errno && g.state == f.state && g.headerState == f.headerState && Keeps(f, g)
  {
  }

  lemma MatchPlain(f: Fields, ch: char)
    requires !f.headerState.ContentLength? && !f.headerState.ConnectionKeepAlive? && !f.headerState.ConnectionClose? && !f.headerState.ConnectionUpgrade?
    ensures var g := ValueChar(f, ch); g == f.(index := g.index, headerState := g.headerState) && !g.headerState.ContentLength?
  {
  }

  lemma ValueFirstGoes(f: Fields, ch: char) returns (g: Fields)
    requires Legal(f) && f.state.HeaderValueDiscardWs? && !f.headerState.ContentLength? && !f.upgrade && !IsBlank(ch) && ch != CR && ch != LF
    ensures Goes(f, [ch], g, [Byte(VALUE, ch)]) && g.state.HeaderValue? && !g.headerState.ContentLength? && Keeps(f, g)
  {
    g := ValueFirst(f, ch);
    GoesOne(f, ch);
  }

  lemma PlainValueGoes(f: Fields, s: string) returns (g: Fields)
    requires Legal(f) && f.state.HeaderValueDiscardWs? && !f.headerState.ContentLength? && !f.upgrade
    requires s != "" && !IsBlank(s[0]) && ValueChars(s)
    ensures Goes(f, s, g, Bytes(VALUE, s)) && g.state.HeaderValue? && !g.headerState.ContentLength? && Keeps(f, g)
  {
    var h := ValueFirstGoes(f, s[0]);
    g := ValueRestGoes(h, s[1..]);
    GoesOn(f, s, h, [Byte(VALUE, s[0])], g, Bytes(VALUE, s[1..]));
    FirstByte(VALUE, s);
  }

  // ---------- lengths ----------

  /** The digits behind the first: all of them are taken, or the run ends among them. */
  lemma {:induction false} LengthRestGoes(f: Fields, s: string)
    requires Legal(f) && f.state.HeaderValue? && f.headerState.ContentLength? && !f.upgrade && ValueChars(s) && f.contentLength <= ULLONG_MAX - 6
    ensures if Digits(s) && Decimal(f.contentLength, s) <= ULLONG_MAX - 6 then
              Goes(f, s, f.(contentLength := Decimal(f.contentLength, s)), Bytes(VALUE, s))
            else Ended(Fold(f, s))
    decreases |s|
  {
    if s == "" {
      GoesNothing(f);
    } else {
      FirstByte(VALUE, s);
      DigitsFirst(s);
      if (IsNum(s[0]) || s[0] == ' ') && Longer(f.contentLength, s[0]) <= ULLONG_MAX - 6 {
        LengthCharGoes(f, s[0]);
        var h := f.(contentLength := Longer(f.contentLength, s[0]));
        LengthRestGoes(h, s[1..]);
        if Digits(s) && Decimal(f.contentLength, s) <= ULLONG_MAX - 6 {
          var g := h.(contentLength := Decimal(h.contentLength, s[1..]));
          GoesOn(f, s, h, [Byte(VALUE, s[0])], g, Bytes(VALUE, s[1..]));
        } else {
          GoesNoFurther(f, [s[0]], h, [Byte(VALUE, s[0])], s[1..]);
          assert [s[0]] + s[1..] == s;
        }
      } else {
        LengthCharEnds(f, s[0]);
        FoldStep(f, s);
      }
    }
  }

  /** The number with a character more. */
  function Longer(v: nat, ch: char): nat {
    if IsNum(ch) then 10 * v + FirstDigit(ch) else v
  }

  lemma DigitsFirst(s: string)
    requires s != ""
    ensures Digits(s) <==> (IsNum(s[0]) || s[0] == ' ') && Digits(s[1..])
    ensures forall v: nat :: Digits(s) ==> Decimal(v, s) == Decimal(Longer(v, s[0]), s[1..])
  {
    if Digits(s[1..]) {
      assert forall i :: 0 < i < |s| ==> s[i] == s[1..][i - 1];
    }
  }

  lemma LengthCharGoes(f: Fields, ch: char)
    requires Legal(f) && f.state.HeaderValue? && f.headerState.ContentLength? && !f.upgrade && (IsNum(ch) || ch == ' ')
    requires Longer(f.contentLength, ch) <= ULLONG_MAX - 6
    ensures Goes(f, [ch], f.(contentLength := Longer(f.contentLength, ch)), [Byte(VALUE, ch)])
  {
    assert ch != CR && ch != LF && IsHeaderChar(ch);
    GoesOne(f, ch);
  }

  lemma LengthCharEnds(f: Fields, ch: char)
    requires Legal(f) && f.state.HeaderValue? && f.headerState.ContentLength? && IsHeaderChar(ch) && ch != CR && ch != LF
    requires !((IsNum(ch) || ch == ' ') && Longer(f.contentLength, ch) <= ULLONG_MAX - 6) && f.contentLength <= ULLONG_MAX - 6
    ensures Ended(Next(f, ch))
  {
  }

  /** A length goes through if it is the first one and a number; the next one would be the second. */
  lemma LengthValueGoes(f: Fields, s: string) returns (g: Fields)
    requires Legal(f) && f.state.HeaderValueDiscardWs? && f.headerState.ContentLength? && !f.upgrade
    requires s != "" && !IsBlank(s[0]) && ValueChars(s)
    ensures if !f.flags.contentLength && LengthValue(s) then
              && Goes(f, s, g, Bytes(VALUE, s)) && g.state.HeaderValue? && g.headerState.ContentLength?
              && Keeps(f.(flags := f.flags.(contentLength := true)), g)
            else Ended(Fold(f, s))
  {
    g := f;
    if !IsNum(s[0]) || f.flags.contentLength {
      LengthFirstEnds(f, s[0]);
      FoldStep(f, s);
    } else {
      var h := LengthFirstGoes(f, s[0]);
      DigitsFirst(s);
      LengthRestGoes(h, s[1..]);
      if LengthValue(s) {
        g := h.(contentLength := Decimal(h.contentLength, s[1..]));
        FirstByte(VALUE, s);
        GoesOn(f, s, h, [Byte(VALUE, s[0])], g, Bytes(VALUE, s[1..]));
      } else {
        GoesNoFurther(f, [s[0]], h, [Byte(VALUE, s[0])], s[1..]);
        assert [s[0]] + s[1..] == s;
      }
    }
  }

  lemma LengthFirstEnds(f: Fields, ch: char)
    requires Legal(f) && f.state.HeaderValueDiscardWs? && f.headerState.ContentLength? && !IsBlank(ch) && ch != CR && ch != LF
    requires !IsNum(ch) || f.flags.contentLength
    ensures Ended(Next(f, ch))
  {
  }

  lemma LengthFirstGoes(f: Fields, ch: char) returns (g: Fields)
    requires Legal(f) && f.state.HeaderValueDiscardWs? && f.headerState.ContentLength? && !f.upgrade
    requires IsNum(ch) && !f.flags.contentLength
    ensures Goes(f, [ch], g, [Byte(VALUE, ch)]) && g.contentLength == FirstDigit(ch) <= 9
    ensures g.state.HeaderValue? && g.headerState.ContentLength? && !g.upgrade
    ensures Keeps(f.(flags := f.flags.(contentLength := true)), g)
  {
    g := ValueFirst(f, ch);
    GoesOne(f, ch);
  }

  lemma TrailerLineEnds(f: Fields, v: string, h: Fields) returns (g: Fields)
    requires Goes(f, v, h, Bytes(VALUE, v)) && h.state.HeaderValue? && !h.upgrade && h.flags.trailing
    ensures Goes(f, v + CRLF, g, Bytes(VALUE, v)) && AtTrailer(g) && g.state.HeaderValueLws? && Keeps(h, g)
    ensures g.headerState == h.headerState
  {
    g := Goto(h, HeaderValueLws);
    LineEndGoes(f, v, h);
  }

  // ---------- folds ----------

  /** In the value, behind a line break. */
  predicate AtFold(f: Fields) {
    Legal(f) && f.state.HeaderValueLws? && f.flags.trailing && !f.upgrade
  }

  lemma FoldFirstGoes(f: Fields, ch: char) returns (g: Fields)
    requires AtFold(f) && !f.headerState.ContentLength? && IsBlank(ch)
    ensures Goes(f, [ch], g, [Byte(VALUE, ch)]) && g.state.HeaderValue? && !g.headerState.ContentLength? && Keeps(f, g)
  {
    g := ValueFirst(f, ch);
    GoesOne(f, ch);
  }

  lemma OneFoldGoes(f: Fields, fold: string) returns (g: Fields)
    requires AtFold(f) && !f.headerState.ContentLength? && FoldShaped(fold)
    ensures Goes(f, fold + CRLF, g, Bytes(VALUE, fold)) && AtFold(g) && !g.headerState.ContentLength? && Keeps(f, g)
  {
    var h1 := FoldFirstGoes(f, fold[0]);
    var h2 := ValueRestGoes(h1, fold[1..]);
    GoesOn(f, fold, h1, [Byte(VALUE, fold[0])], h2, Bytes(VALUE, fold[1..]));
    FirstByte(VALUE, fold);
    g := TrailerLineEnds(f, fold, h2);
  }

  /** A value that is no length goes on over any folds. */
  lemma {:induction false} FoldsGo(f: Fields, folds: seq<string>) returns (g: Fields)
    requires AtFold(f) && !f.headerState.ContentLength? && FoldsShaped(folds)
    ensures Goes(f, Folded(folds), g, Bytes(VALUE, Joined(folds))) && AtFold(g) && Keeps(f, g)
    decreases |folds|
  {
    if folds == [] {
      GoesNothing(f);
      g := f;
    } else {
      var h := OneFoldGoes(f, folds[0]);
      g := FoldsGo(h, folds[1..]);
      GoesJoin(f, folds[0] + CRLF, h, Bytes(VALUE, folds[0]), Folded(folds[1..]), g, Bytes(VALUE, Joined(folds[1..])));
      BytesJoin(VALUE, folds[0], Joined(folds[1..]));
    }
  }

  /** A length does not. */
  lemma FoldedLengthEnds(f: Fields, folds: seq<string>)
    requires AtFold(f) && f.headerState.ContentLength? && FoldsShaped(folds) && folds != []
    ensures Ended(Fold(f, Folded(folds)))
  {
    var s := Folded(folds);
    assert FoldShaped(folds[0]) && s[0] == folds[0][0];
    FoldedLengthChar(f, s[0]);
    FoldStep(f, s);
  }

  lemma FoldedLengthChar(f: Fields, ch: char)
    requires AtFold(f) && f.headerState.ContentLength? && IsBlank(ch)
    ensures Ended(Next(f, ch))
  {
    assert ValueFirst(f, ch) == Fail(f, INVALID_CONTENT_LENGTH);
  }

  // ---------- values on one line or several ----------

  lemma PlainTextGoes(f: Fields, v: string, folds: seq<string>) returns (g: Fields)
    requires Legal(f) && f.state.HeaderValueDiscardWs? && f.flags.trailing && !f.upgrade && !f.headerState.ContentLength?
    requires v != "" && !IsBlank(v[0]) && ValueChars(v) && FoldsShaped(folds)
    ensures Goes(f, Text(v, folds), g, Bytes(VALUE, v + Joined(folds))) && AtTrailer(g) && Keeps(f, g)
  {
    var h := PlainValueGoes(f, v);
    var h2 := TrailerLineEnds(f, v, h);
    g := FoldsGo(h2, folds);
    GoesJoin(f, v + CRLF, h2, Bytes(VALUE, v), Folded(folds), g, Bytes(VALUE, Joined(folds)));
    BytesJoin(VALUE, v, Joined(folds));
  }

  lemma LengthTextGoes(f: Fields, v: string, folds: seq<string>) returns (g: Fields)
    requires Legal(f) && f.state.HeaderValueDiscardWs? && f.flags.trailing && !f.upgrade && f.headerState.ContentLength?
    requires v != "" && !IsBlank(v[0]) && ValueChars(v) && FoldsShaped(folds)
    ensures if !f.flags.contentLength && LengthValue(v) && folds == [] then
              Goes(f, Text(v, folds), g, Bytes(VALUE, v)) && AtTrailer(g) && g.flags.contentLength
            else Ended(Fold(f, Text(v, folds)))
  {
    g := f;
    var h := LengthValueGoes(f, v);
    if !f.flags.contentLength && LengthValue(v) {
      var h2 := TrailerLineEnds(f, v, h);
      if folds == [] {
        g := h2;
        assert Text(v, folds) == v + CRLF;
      } else {
        FoldedLengthEnds(h2, folds);
        GoesNoFurther(f, v + CRLF, h2, Bytes(VALUE, v), Folded(folds));
      }
    } else {
      FoldJoin(f, v, CRLF + Folded(folds));
      assert v + (CRLF + Folded(folds)) == Text(v, folds);
    }
  }

  /** The value begins on this line. */
  lemma StartedGoes(f: Fields, v: string, folds: seq<string>, isLength: bool) returns (g: Fields)
    requires Legal(f) && f.state.HeaderValueDiscardWs? && f.flags.trailing && !f.upgrade
    requires v != "" && !IsBlank(v[0]) && ValueChars(v) && FoldsShaped(folds)
    requires f.headerState.ContentLength? <==> isLength
    ensures if isLength ==> !f.flags.contentLength && LengthValue(v) && folds == [] then
              Goes(f, Text(v, folds), g, Bytes(VALUE, v + Joined(folds))) && AtTrailer(g)
              && g.flags.contentLength == (f.flags.contentLength || isLength)
            else Ended(Fold(f, Text(v, folds)))
  {
    if isLength {
      g := LengthTextGoes(f, v, folds);
      assert v + "" == v;
    } else {
      g := PlainTextGoes(f, v, folds);
    }
  }

  predicate TextFits(value: string, folds: seq<string>, isLength: bool, seen: bool) {
    isLength && Value(value, folds) != "" ==> !seen && LengthText(value, folds)
  }

  /** The text goes through to the start of a line, if it is taken, and ends the run with an error if not. */
  predicate Takes(f: Fields, s: string, g: Fields, atoms: seq<Atom>, taken: bool, seen: bool) {
    Legal(f) && if taken then Goes(f, s, g, atoms) && AtTrailer(g) && g.flags.contentLength == seen else Ended(Fold(f, s))
  }

  /** Nothing on this line: the value may begin on the next. */
  lemma NothingYet(f: Fields, folds: seq<string>) returns (g: Fields, next: Fields)
    requires Legal(f) && f.state.HeaderValueDiscardWs? && f.flags.trailing && !f.upgrade && FoldsShaped(folds)
    ensures Goes(f, CRLF, g, []) && AtTrailer(g) && Keeps(f, g)
    ensures folds != [] ==>
      && Goes(f, CRLF + [folds[0][0]], next, []) && Keeps(f, next) && next.headerState == f.headerState
      && next.state.HeaderValueDiscardWs?
  {
    g := Goto(f, HeaderValueDiscardLws);
    EmptyValueGoes(f);
    next := Goto(g, HeaderValueDiscardWs);
    if folds != [] {
      assert FoldShaped(folds[0]);
      GoesOne(g, folds[0][0]);
      GoesJoin(f, CRLF, g, [], [folds[0][0]], next, []);
    }
  }

  /** The value, from the colon to the end of its last line. */
  lemma {:induction false} TextGoes(f: Fields, value: string, folds: seq<string>, isLength: bool) returns (g: Fields)
    requires Legal(f) && f.state.HeaderValueDiscardWs? && f.flags.trailing && !f.upgrade && ValueChars(value) && FoldsShaped(folds)
    requires f.headerState.ContentLength? <==> isLength
    ensures Takes(f, Text(value, folds), g, Bytes(VALUE, Value(value, folds)), TextFits(value, folds, isLength, f.flags.contentLength),
                  f.flags.contentLength || (isLength && Value(value, folds) != ""))
    decreases |folds|
  {
    var v, atoms := Stripped(value), Bytes(VALUE, Value(value, folds));
    var fits := TextFits(value, folds, isLength, f.flags.contentLength);
    var seen := f.flags.contentLength || (isLength && Value(value, folds) != "");
    var blanks := StripSplit(value);
    BlanksGo(f, blanks);
    var all, text := Text(value, folds), TextFrom(value, folds);
    TextSplits(value, blanks, folds, all, text);
    if v != "" {
      g := StartedGoes(f, v, folds, isLength);
    } else {
      var next;
      g, next := NothingYet(f, folds);
      if folds != [] {
        SameValue(folds[0], folds[1..]);
        var start, rest := CRLF + [folds[0][0]], Text(folds[0][1..], folds[1..]);
        g := TextGoes(next, folds[0][1..], folds[1..], isLength);
        NextLineSplits(folds, start, rest, text);
        Behind(f, start, next, rest, text, g, atoms, fits, seen);
      }
    }
    Behind(f, blanks, f, text, all, g, atoms, fits, seen);
  }

  /** The text without the blanks in front of it. */
  function TextFrom(value: string, folds: seq<string>): string {
    if Stripped(value) != "" then Text(Stripped(value), folds) else if folds == [] then CRLF else CRLF + Folded(folds)
  }

  lemma TextSplits(value: string, blanks: string, folds: seq<string>, all: string, text: string)
    requires value == blanks + Stripped(value) && all == Text(value, folds) && text == TextFrom(value, folds)
    ensures all == blanks + text
  {
    if Stripped(value) != "" {
      assert blanks + Stripped(value) + CRLF + Folded(folds) == blanks + (Stripped(value) + CRLF + Folded(folds));
    } else {
      assert value == blanks;
      assert value + CRLF + Folded(folds) == blanks + (CRLF + Folded(folds));
    }
  }

  lemma NextLineSplits(folds: seq<string>, start: string, rest: string, text: string)
    requires folds != [] && folds[0] != "" && start == CRLF + [folds[0][0]] && rest == Text(folds[0][1..], folds[1..])
    requires text == CRLF + Folded(folds)
    ensures text == start + rest
  {
    var line, more := folds[0][1..] + CRLF, Folded(folds[1..]);
    assert folds[0] + CRLF == [folds[0][0]] + line;
    Regrouped(CRLF, folds[0][0], line, more);
  }

  lemma Regrouped(a: string, x: char, b: string, c: string)
    ensures a + [x] + (b + c) == a + ([x] + b + c)
  {
  }

  /** Behind a run that goes through silently. */
  lemma Behind(f: Fields, start: string, next: Fields, s: string, all: string, g: Fields, atoms: seq<Atom>, taken: bool, seen: bool)
    requires Goes(f, start, next, []) && Takes(next, s, g, atoms, taken, seen) && all == start + s
    ensures Takes(f, all, g, atoms, taken, seen)
  {
    if taken {
      GoesJoin(f, start, next, [], s, g, atoms);
      assert [] + atoms == atoms;
    } else {
      GoesNoFurther(f, start, next, [], s);
    }
  }

  lemma SameValue(fold: string, rest: seq<string>)
    requires FoldShaped(fold)
    ensures Value(fold[1..], rest) == Value(fold, rest) && (LengthText(fold[1..], rest) <==> LengthText(fold, rest))
    ensures ValueChars(fold[1..])
  {
  }

  lemma LineGoes(f: Fields, t: Trailer) returns (g: Fields)
    requires AtTrailer(f) && Shaped(t)
    ensures if LineFits(t, f.flags.contentLength) then
              Goes(f, Line(t), g, LineAtoms(t)) && AtTrailer(g) && g.flags.contentLength == (f.flags.contentLength || GivesLength(t))
            else Ended(Fold(f, Line(t)))
  {
    var h := NameGoes(f, t.name);
    ConcludedKeeps(f, Concluded(f));
    var text := Text(t.value, t.folds);
    g := TextGoes(h, t.value, t.folds, Lower(t.name) == LENGTH_NAME);
    if LineFits(t, f.flags.contentLength) {
      GoesJoin(f, t.name + ":", h, Bytes(FIELD, t.name), text, g, Bytes(VALUE, ValueOf(t)));
    } else {
      GoesNoFurther(f, t.name + ":", h, Bytes(FIELD, t.name), text);
    }
    assert t.name + ":" + text == Line(t);
  }

  /** The empty line: the message is complete, and whether the connection stays depends on the flags as the trailer left them. */
  lemma EndGoes(f: Fields) returns (g: Fields)
    requires AtTrailer(f)
    ensures Goes(f, CRLF, g, [Note(ChunkComplete), Note(MessageComplete)])
    ensures g.state == NewMessage(g) && g == Goto(Settled(f), g.state)
  {
    EmptyLineGoes(f);
    var h := Goto(Settled(f), HeadersAlmostDone);
    g := AllDone(f, h);
    GoesJoin(f, [CR], h, [], [LF], g, [Note(ChunkComplete), Note(MessageComplete)]);
    assert [CR] + [LF] == CRLF && [] + [Note(ChunkComplete), Note(MessageComplete)] == [Note(ChunkComplete), Note(MessageComplete)];
  }

  lemma AllDone(f: Fields, h: Fields) returns (g: Fields)
    requires AtTrailer(f) && h == Goto(Settled(f), HeadersAlmostDone)
    ensures Goes(h, [LF], g, [Note(ChunkComplete), Note(MessageComplete)]) && g == Goto(h, NewMessage(h)) && NewMessage(g) == NewMessage(h)
  {
    ConcludedKeeps(f, Concluded(f));
    g := Goto(h, NewMessage(h));
    assert [Note(ChunkComplete)] + [Note(MessageComplete)] == [Note(ChunkComplete), Note(MessageComplete)];
    GoesOne(h, LF);
  }

  /** A trailer goes through if it fits, and ends the run with an error if not. */
  lemma {:induction false} TrailerGoes(f: Fields, ts: seq<Trailer>) returns (g: Fields)
    requires AtTrailer(f) && forall i :: 0 <= i < |ts| ==> Shaped(ts[i])
    ensures if Fits(ts, f.flags.contentLength) then
              Goes(f, TrailerText(ts), g, TrailerAtoms(ts) + [Note(ChunkComplete), Note(MessageComplete)]) && g.state == NewMessage(g)
            else Ended(Fold(f, TrailerText(ts)))
    ensures ts == [] ==> g == Goto(Settled(f), g.state)
    decreases |ts|
  {
    var end := [Note(ChunkComplete), Note(MessageComplete)];
    if ts == [] {
      g := EndGoes(f);
      assert TrailerText(ts) == CRLF && [] + end == end;
    } else {
      var h := LineGoes(f, ts[0]);
      assert TrailerText(ts) == Line(ts[0]) + TrailerText(ts[1..]);
      if !LineFits(ts[0], f.flags.contentLength) {
        FoldJoin(f, Line(ts[0]), TrailerText(ts[1..]));
        g := f;
      } else {
        g := TrailerGoes(h, ts[1..]);
        if Fits(ts, f.flags.contentLength) {
          GoesJoin(f, Line(ts[0]), h, LineAtoms(ts[0]), TrailerText(ts[1..]), g, TrailerAtoms(ts[1..]) + end);
          assert LineAtoms(ts[0]) + (TrailerAtoms(ts[1..]) + end) == TrailerAtoms(ts) + end;
        } else {
          GoesNoFurther(f, Line(ts[0]), h, LineAtoms(ts[0]), TrailerText(ts[1..]));
        }
      }
    }
  }
}
