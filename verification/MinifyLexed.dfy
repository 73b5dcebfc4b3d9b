/**
 cJSON_Minify against a lexer that reads the text character by character and knows in what it is: plain text, a string, one
 of the two kinds of comment. What Minify leaves is what the lexer keeps; so comments vanish, and a comment that never ends takes
 the rest of the text with it.
 */
module MinifyLexed {
  import opened JsonText
  import opened JsonParse
  import opened Minify

  /** Behind a slash, a star or a backslash the next character decides. */
  datatype Mode = Plain | Slash | Line | Block | Star | Inside | Backslash

  function Lexed(x: char, mode: Mode): Mode {
    match mode
    case Plain => if x == '/' then Slash else if x == '\"' then Inside else Plain
    case Slash => if x == '/' then Line else if x == '*' then Block else if x == '\"' then Inside else Plain
    case Line => if x == '\n' then Plain else Line
    case Block => if x == '*' then Star else Block
    case Star => if x == '/' then Plain else if x == '*' then Star else Block
    case Inside => if x == '\"' then Plain else if x == '\\' then Backslash else Inside
    case Backslash => if x == '\\' then Backslash else Inside
  }

  predicate White(x: char) {
    x == ' ' || x == '\t' || x == '\r' || x == '\n'
  }

  predicate Keeps(x: char, mode: Mode) {
    match mode
    case Plain => !White(x) && x != '/'
    case Slash => !White(x) && x != '/' && x != '*'
    case Inside => true
    case Backslash => true
    case _ => false
  }

  function Kept(t: string, mode: Mode): string {
    if t == "" then "" else (if Keeps(t[0], mode) then [t[0]] else "") + Kept(t[1..], Lexed(t[0], mode))
  }

  function After(t: string, mode: Mode): Mode {
    if t == "" then mode else After(t[1..], Lexed(t[0], mode))
  }

  lemma {:induction false} KeptJoin(a: string, b: string, mode: Mode)
    ensures Kept(a + b, mode) == Kept(a, mode) + Kept(b, After(a, mode))
    ensures After(a + b, mode) == After(b, After(a, mode))
    decreases |a|
  {
    if a == "" {
      assert a + b == b;
    } else {
      assert (a + b)[1..] == a[1..] + b;
      KeptJoin(a[1..], b, Lexed(a[0], mode));
      Assoc(if Keeps(a[0], mode) then [a[0]] else "", Kept(a[1..], Lexed(a[0], mode)), Kept(b, After(a, mode)));
    }
  }

  lemma Assoc(a: string, b: string, c: string)
    ensures a + (b + c) == a + b + c
  {
  }

  // ---------- Minify is the lexer ----------

  /** The text from `p` to its NUL. */
  function Rest(c: string, p: nat): string
    requires p < |c|
  {
    c[p..|c| - 1]
  }

  lemma RestStep(c: string, p: nat, mode: Mode)
    requires Terminated(c) && p < |c|
    ensures c[p] == NUL ==> Rest(c, p) == ""
    ensures c[p] != NUL ==>
        p + 1 < |c| && Kept(Rest(c, p), mode) == (if Keeps(c[p], mode) then [c[p]] else "") + Kept(Rest(c, p + 1), Lexed(c[p], mode))
  {
    if c[p] != NUL {
      assert Rest(c, p)[0] == c[p] && Rest(c, p)[1..] == Rest(c, p + 1);
    }
  }

  lemma {:induction false} LineLexed(c: string, p: nat)
    requires Terminated(c) && p < |c|
    ensures Kept(Rest(c, p), Line) == Kept(Rest(c, LineEnd(c, p)), Plain)
    decreases |c| - p
  {
    RestStep(c, p, Line);
    if c[p] != NUL && c[p] != '\n' {
      LineLexed(c, p + 1);
    }
  }

  lemma {:induction false} BlockLexed(c: string, p: nat)
    requires Terminated(c) && p < |c|
    ensures Kept(Rest(c, p), Block) == Kept(Rest(c, BlockEnd(c, p)), Plain)
    ensures c[p] != '/' ==> Kept(Rest(c, p), Star) == Kept(Rest(c, BlockEnd(c, p)), Plain)
    decreases |c| - p
  {
    RestStep(c, p, Block);
    RestStep(c, p, Star);
    if c[p] != NUL {
      BlockLexed(c, p + 1);
      RestStep(c, p + 1, Star);
    }
  }

  lemma {:induction false} StringLexed(c: string, p: nat)
    requires Terminated(c) && p < |c|
    ensures Kept(Rest(c, p), Inside) == c[p..StringEnd(c, p)] + Kept(Rest(c, StringEnd(c, p)), Plain)
    ensures c[p] != '\"' ==> Kept(Rest(c, p), Backslash) == c[p..StringEnd(c, p)] + Kept(Rest(c, StringEnd(c, p)), Plain)
    decreases |c| - p
  {
    RestStep(c, p, Inside);
    RestStep(c, p, Backslash);
    var e := StringEnd(c, p);
    if c[p] == '\"' {
      assert c[p..e] == [c[p]];
    } else if c[p] != NUL {
      assert c[p..e] == [c[p]] + c[p + 1..e];
      if c[p] == '\\' && c[p + 1] == '\"' {
        RestStep(c, p + 1, Backslash);
        StringLexed(c, p + 2);
        assert c[p + 1..e] == [c[p + 1]] + c[p + 2..e];
        Assoc([c[p + 1]], c[p + 2..e], Kept(Rest(c, e), Plain));
      } else {
        StringLexed(c, p + 1);
      }
      Assoc([c[p]], c[p + 1..e], Kept(Rest(c, e), Plain));
    }
  }

  /** What Minify leaves is what the lexer keeps. */
  lemma {:induction false} MinifiedKept(c: string, p: nat)
    requires Terminated(c) && p < |c|
    ensures Minified(c, p) == Kept(Rest(c, p), Plain)
    decreases |c| - p
  {
    RestStep(c, p, Plain);
    if c[p] == NUL {
    } else if c[p] == '/' {
      RestStep(c, p + 1, Slash);
      if c[p + 1] == '/' {
        LineLexed(c, p + 2);
        MinifiedKept(c, LineEnd(c, p + 2));
      } else if c[p + 1] == '*' {
        BlockLexed(c, p + 2);
        MinifiedKept(c, BlockEnd(c, p + 2));
      } else {
        RestStep(c, p + 1, Plain);
        MinifiedKept(c, p + 1);
      }
    } else if c[p] == '\"' {
      var e := StringEnd(c, p + 1);
      StringLexed(c, p + 1);
      MinifiedKept(c, e);
      assert c[p..e] == [c[p]] + c[p + 1..e];
      Assoc([c[p]], c[p + 1..e], Kept(Rest(c, e), Plain));
    } else {
      MinifiedKept(c, p + 1);
    }
  }

  /** The same for a text and its NUL. */
  lemma MinifiedText(text: string)
    requires NUL !in text
    ensures Terminated(text + [NUL]) && Minified(text + [NUL], 0) == Kept(text, Plain)
  {
    assert forall i :: 0 <= i < |text| ==> text[i] in text;
    MinifiedKept(text + [NUL], 0);
    assert Rest(text + [NUL], 0) == text;
  }

  // ---------- comments, white space and strings ----------

  /** What Minify leaves of a text, without the NUL. */
  function Left(text: string): string
    requires NUL !in text
  {
    assert forall i :: 0 <= i < |text| ==> text[i] in text;
    Minified(text + [NUL], 0)
  }

  /** The text ends outside strings and comments, and not with a slash. */
  predicate EndsPlain(text: string) {
    After(text, Plain) == Plain
  }

  /** A text of which nothing is left, and behind which the lexer is where it was. */
  lemma Vanishes(a: string, middle: string, b: string)
    requires EndsPlain(a) && Kept(middle, Plain) == "" && After(middle, Plain) == Plain
    requires NUL !in a && NUL !in middle && NUL !in b
    ensures Left(a + middle + b) == Left(a + b)
  {
    MinifiedText(a + middle + b);
    MinifiedText(a + b);
    KeptJoin(a, middle, Plain);
    KeptJoin(a + middle, b, Plain);
    KeptJoin(a, b, Plain);
    assert Kept(a, Plain) + "" == Kept(a, Plain);
  }

  /** Nothing of what stands between these marks is left. */
  lemma {:induction false} LineInside(x: string)
    requires '\n' !in x
    ensures Kept(x, Line) == "" && After(x, Line) == Line
    decreases |x|
  {
    if x != "" {
      LineInside(x[1..]);
    }
  }

  /** A star and a slash behind it, from index `i` on. */
  predicate Closes(x: string, i: nat) {
    i + 1 < |x| && x[i] == '*' && x[i + 1] == '/'
  }

  lemma {:induction false} BlockInside(x: string, mode: Mode)
    requires mode == Block || mode == Star
    requires (forall i: nat :: !Closes(x, i)) && !(mode == Star && x != "" && x[0] == '/')
    ensures Kept(x, mode) == "" && (After(x, mode) == Block || After(x, mode) == Star)
    ensures x != "" && x[|x| - 1] == '*' ==> After(x, mode) == Star
    decreases |x|
  {
    if x != "" {
      assert !Closes(x, 0);
      forall i: nat ensures !Closes(x[1..], i) {
        assert !Closes(x, i + 1);
      }
      BlockInside(x[1..], Lexed(x[0], mode));
    }
  }

  /** A comment to the end of the line vanishes, with its line break. */
  lemma LineCommentVanishes(a: string, x: string, b: string)
    requires EndsPlain(a) && '\n' !in x && NUL !in a && NUL !in x && NUL !in b
    ensures Left(a + ("//" + x + "\n") + b) == Left(a + b)
  {
    LineInside(x);
    var middle := "//" + x + "\n";
    MarkLexed('/', Line);
    KeptJoin("//", x, Plain);
    KeptJoin("//" + x, "\n", Plain);
    Vanishes(a, middle, b);
  }

  lemma MarkLexed(x: char, mode: Mode)
    requires x == '/' || x == '*'
    requires mode == if x == '/' then Line else Block
    ensures Kept(['/', x], Plain) == "" && After(['/', x], Plain) == mode
  {
    assert ['/'][1..] == "" && [x][1..] == "" && ['/', x] == ['/'] + [x];
    KeptJoin(['/'], [x], Plain);
  }

  /** A block comment vanishes up to the first end mark behind its start. */
  lemma BlockCommentVanishes(a: string, x: string, b: string)
    requires EndsPlain(a) && (forall i: nat :: i < |x| ==> !Closes(x + "*/", i)) && NUL !in a && NUL !in x && NUL !in b
    ensures Left(a + ("/*" + (x + "*/")) + b) == Left(a + b)
  {
    var body := x + "*";
    forall i: nat ensures !Closes(body, i) {
      assert i < |x| ==> !Closes(x + "*/", i);
    }
    BlockInside(body, Block);
    MarkLexed('*', Block);
    assert x + "*/" == body + "/";
    KeptJoin(body, "/", Block);
    assert "/"[1..] == "";
    KeptJoin("/*", x + "*/", Plain);
    Vanishes(a, "/*" + (x + "*/"), b);
  }

  /** A comment that never ends takes the rest of the text with it. */
  lemma OpenCommentDropsTheRest(a: string, x: string)
    requires EndsPlain(a) && NUL !in a && NUL !in x
    ensures '\n' !in x ==> Left(a + ("//" + x)) == Left(a)
    ensures (forall i: nat :: !Closes(x, i)) ==> Left(a + ("/*" + x)) == Left(a)
  {
    if '\n' !in x {
      LineInside(x);
      MarkLexed('/', Line);
      KeptJoin("//", x, Plain);
      DropsTheRest(a, "//" + x);
    }
    if forall i: nat :: !Closes(x, i) {
      BlockInside(x, Block);
      MarkLexed('*', Block);
      KeptJoin("/*", x, Plain);
      DropsTheRest(a, "/*" + x);
    }
  }

  lemma DropsTheRest(a: string, rest: string)
    requires EndsPlain(a) && NUL !in a && NUL !in rest && Kept(rest, Plain) == ""
    ensures Left(a + rest) == Left(a)
  {
    MinifiedText(a + rest);
    MinifiedText(a);
    KeptJoin(a, rest, Plain);
    assert Kept(a, Plain) + "" == Kept(a, Plain);
  }

  /** A blank, a tab or a line break outside strings and comments vanishes. */
  lemma WhiteVanishes(a: string, x: char, b: string)
    requires EndsPlain(a) && White(x) && NUL !in a && NUL !in b
    ensures Left(a + [x] + b) == Left(a + b)
  {
    assert [x][1..] == "";
    Vanishes(a, [x], b);
  }

  /** A string stays, with all that is in it. */
  lemma StringStays(a: string, s: string, b: string)
    requires EndsPlain(a) && NUL !in a && NUL !in s && NUL !in b
    requires After(s, Inside) == Inside && forall i :: 0 <= i < |s| ==> After(s[..i], Inside) != Plain
    ensures Left(a + (['\"'] + s + ['\"']) + b) == Left(a) + (['\"'] + s + ['\"']) + Left(b)
  {
    var text := ['\"'] + s + ['\"'];
    InsideKept(s, Inside);
    assert ['\"'][1..] == "" && ['\"'] + "" == ['\"'];
    KeptJoin(['\"'], s, Plain);
    KeptJoin(['\"'] + s, ['\"'], Plain);
    Stays(a, text, b);
  }

  lemma {:induction false} InsideKept(s: string, mode: Mode)
    requires mode == Inside || mode == Backslash
    requires forall i :: 0 <= i < |s| ==> After(s[..i], mode) != Plain
    ensures Kept(s, mode) == s
    decreases |s|
  {
    if |s| > 1 {
      assert s[..1][1..] == "" && After(s[..1], mode) == Lexed(s[0], mode);
      forall i | 0 <= i < |s| - 1 ensures After(s[1..][..i], Lexed(s[0], mode)) != Plain {
        assert s[..i + 1][1..] == s[1..][..i];
      }
      InsideKept(s[1..], Lexed(s[0], mode));
    }
    assert s != "" ==> s == [s[0]] + s[1..];
  }

  lemma Stays(a: string, middle: string, b: string)
    requires EndsPlain(a) && Kept(middle, Plain) == middle && EndsPlain(middle) && NUL !in a && NUL !in middle && NUL !in b
    ensures Left(a + middle + b) == Left(a) + middle + Left(b)
  {
    MinifiedText(a + middle + b);
    MinifiedText(a);
    MinifiedText(b);
    KeptJoin(a, middle, Plain);
    KeptJoin(a + middle, b, Plain);
  }

  /** Any character that is not white space, a slash or a quote stays. */
  lemma CharacterStays(a: string, x: char, b: string)
    requires EndsPlain(a) && !White(x) && x != '/' && x != '\"' && x != NUL && NUL !in a && NUL !in b
    ensures Left(a + [x] + b) == Left(a) + [x] + Left(b)
  {
    assert [x][1..] == "" && [x] + "" == [x];
    Stays(a, [x], b);
  }
}
