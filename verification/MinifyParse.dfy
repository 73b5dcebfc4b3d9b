/** A minified text is parsed as the text it was made from. */
module MinifyParse {
  import opened CStrings
  import opened JsonTrees
  import opened JsonText
  import opened Utf16
  import opened JsonParse
  import opened JsonGrammar
  import opened JsonRoundTrip
  import opened Minify

  /** The string from `p` on does not end in an escaped backslash: no backslash stands in front of its closing quote. Nor does it
      matter where nothing follows the string. */
  predicate EndsClean(c: string, p: nat)
    requires Terminated(c) && p <= |c| && ClosingQuote(c, p).Some?
  {
    var e := ClosingQuote(c, p).value;
    e == p || c[e - 1] != '\\' || c[e + 1] == NUL
  }

  /** No string from `p` on ends in an escaped backslash. */
  predicate Clean(c: string, p: nat)
    requires Terminated(c) && p <= |c|
    decreases |c| - p
  {
    if p == |c| then true
    else if c[p] != '\"' then Clean(c, p + 1)
    else
      var e := ClosingQuote(c, p + 1);
      e.Some? ==> EndsClean(c, p + 1) && Clean(c, e.value + 1)
  }

  /** The minified text `c'` goes on at `q` as the text does at `p`, and the strings to come are clean. */
  predicate Rel(c: string, p: nat, c': string, q: nat)
    requires Terminated(c) && p < |c|
  {
    Leaves(c, p, c', q) && Clean(c, p)
  }

  // ---------- white space ----------

  lemma VisibleKept(c: string, p: nat, c': string, q: nat)
    requires Terminated(c) && p < |c| && Rel(c, p, c', q) && c[p] > ' ' && c[p] != '/'
    ensures q < |c'| && c'[q] == c[p]
  {
    if c[p] == '\"' {
      LeavesString(c, p, c', q);
      assert c'[q + (p - p)] == c[p];
    } else {
      LeavesChar(c, p, c', q);
    }
  }

  /** Both texts reach the same visible character. */
  lemma {:induction false} SkipSim(c: string, p: nat, c': string, q: nat)
    requires Terminated(c) && p < |c| && Rel(c, p, c', q) && c[Skip(c, p)] != '/'
    ensures q < |c'| && Rel(c, Skip(c, p), c', Skip(c', q)) && c'[Skip(c', q)] == c[Skip(c, p)]
    decreases |c| - p
  {
    if c[p] > ' ' {
      VisibleKept(c, p, c', q);
    } else if c[p] != NUL && Dropped(c[p]) {
      SkipSim(c, p + 1, c', q);
    } else if c[p] != NUL {
      LeavesChar(c, p, c', q);
      SkipSim(c, p + 1, c', q + 1);
    }
  }

  /** The two texts agree from here on for `n` characters. */
  predicate Copied(c: string, p: nat, c': string, q: nat, n: nat) {
    p + n <= |c| && q + n <= |c'| && forall k :: p <= k < p + n ==> c'[q + (k - p)] == c[k]
  }

  // ---------- words and numbers ----------

  predicate PlainChar(c: char) {
    c > ' ' && c != '/' && c != '\"'
  }

  lemma {:induction false} PlainRun(c: string, p: nat, c': string, q: nat, n: nat)
    requires Terminated(c) && p + n < |c| && Rel(c, p, c', q) && forall i :: p <= i < p + n ==> PlainChar(c[i])
    ensures q + n < |c'| && Rel(c, p + n, c', q + n) && Copied(c, p, c', q, n)
    decreases n
  {
    if n > 0 {
      assert PlainChar(c[p]);
      LeavesChar(c, p, c', q);
      PlainRun(c, p + 1, c', q + 1, n - 1);
      forall k | p <= k < p + n ensures c'[q + (k - p)] == c[k] {
        assert k > p ==> c'[q + 1 + (k - (p + 1))] == c[k];
      }
    }
  }

  lemma WordKept(c: string, o: nat, c': string, q: nat, word: string)
    requires Terminated(c) && o < |c| && Rel(c, o, c', q) && At(c, o, word) && o + |word| < |c|
    requires forall x :: x in word ==> PlainChar(x)
    ensures q + |word| < |c'| && At(c', q, word) && Rel(c, o + |word|, c', q + |word|)
  {
    AtIndices(c, o, word);
    forall i | o <= i < o + |word| ensures PlainChar(c[i]) {
      assert c[o + (i - o)] == word[i - o] && word[i - o] in word;
    }
    PlainRun(c, o, c', q, |word|);
    forall i | 0 <= i < |word| ensures c'[q + i] == word[i] {
      assert c[o + i] == word[i] && c'[q + (o + i - o)] == c[o + i];
    }
    AtFrom(c', q, word);
  }

  lemma WordSim(c: string, o: nat, c': string, q: nat)
    requires Terminated(c) && o < |c| && Rel(c, o, c', q) && ParseWord(c, o).Parsed?
    ensures var r, r' := ParseWord(c, o), ParseWord(c', q);
      r'.Parsed? && r'.value == r.value && r'.offset < |c'| && Rel(c, r.offset, c', r'.offset)
  {
    NotNull(c, o);
    if At(c, o, "null") {
      WordInside(c, o, "null");
      WordKept(c, o, c', q, "null");
    } else if At(c, o, "false") {
      WordInside(c, o, "false");
      WordKept(c, o, c', q, "false");
      NotNull(c', q);
      VisibleKept(c, o, c', q);
    } else {
      WordInside(c, o, "true");
      WordKept(c, o, c', q, "true");
      NotNull(c', q);
      VisibleKept(c, o, c', q);
    }
  }

  lemma NumberSim(c: string, o: nat, c': string, q: nat, strtod: Strtod)
    requires Terminated(c) && Reads(strtod) && o < |c| && Rel(c, o, c', q) && ParseNumberAt(c, o, strtod).Parsed?
    requires Follows(c, ParseNumberAt(c, o, strtod).offset)
    ensures q < |c'|
    ensures var r, r' := ParseNumberAt(c, o, strtod), ParseNumberAt(c', q, strtod);
      r'.Parsed? && r'.value == r.value && r'.offset < |c'| && Rel(c, r.offset, c', r'.offset)
  {
    var token := NumberToken(c, o, 63);
    WholeToken(c, o, strtod);
    TokenKept(c, o, c', q, token);
    TokenShort(c, o, 63);
    TokenBack(c', q, token, 63);
  }

  /** The token is copied, and what follows it there does not belong to a number either. */
  lemma TokenKept(c: string, o: nat, c': string, q: nat, token: string)
    requires Terminated(c) && o < |c| && Rel(c, o, c', q) && o + |token| < |c|
    requires forall i :: 0 <= i < |token| ==> token[i] == c[o + i] && InNumber(token[i])
    requires Follows(c, o + |token|)
    ensures q + |token| < |c'| && Rel(c, o + |token|, c', q + |token|) && !InNumber(c'[q + |token|])
    ensures forall i :: 0 <= i < |token| ==> token[i] == c'[q + i]
  {
    var e, e' := o + |token|, q + |token|;
    forall i | o <= i < e ensures PlainChar(c[i]) {
      assert token[i - o] == c[o + (i - o)];
    }
    PlainRun(c, o, c', q, |token|);
    SkipSim(c, e, c', e');
    if InNumber(c'[e']) {
      SkipFixed(c', e');
    }
    forall i | 0 <= i < |token| ensures token[i] == c'[q + i] {
      assert token[i] == c[o + i] && c'[q + (o + i - o)] == c[o + i];
    }
  }

  // ---------- strings ----------

  /** minify_string and parse_string agree where a string ends exactly if no backslash stands in front of its closing quote, or
      nothing follows it. */
  lemma {:induction false} EndsAgree(c: string, p: nat)
    requires Terminated(c) && p <= |c| && ClosingQuote(c, p).Some?
    ensures p < |c| && (StringEnd(c, p) == ClosingQuote(c, p).value + 1 <==> EndsClean(c, p))
    ensures StringEnd(c, p) >= ClosingQuote(c, p).value + 1
    decreases |c| - p, 1
  {
    if c[p] == '\"' {
    } else if c[p] != '\\' {
      EndsAgree(c, p + 1);
    } else {
      EscapeAgree(c, p);
    }
  }

  /** Behind a backslash. */
  lemma {:induction false} EscapeAgree(c: string, p: nat)
    requires Terminated(c) && p < |c| && c[p] == '\\' && ClosingQuote(c, p).Some?
    ensures StringEnd(c, p) == ClosingQuote(c, p).value + 1 <==> EndsClean(c, p)
    ensures StringEnd(c, p) >= ClosingQuote(c, p).value + 1
    decreases |c| - p, 0
  {
    EndsAgree(c, p + 2);
    if c[p + 1] == '\\' {
      assert StringEnd(c, p) == StringEnd(c, p + 1);
      if c[p + 2] == '\"' {
        assert StringEnd(c, p + 1) == StringEnd(c, p + 3);
        PastStart(c, p + 3);
      }
    }
  }

  /** A string ends behind its start, unless the text ends there. */
  lemma {:induction false} PastStart(c: string, p: nat)
    requires Terminated(c) && p < |c|
    ensures StringEnd(c, p) == p <==> c[p] == NUL
  {
  }

  lemma CopiedTail(c: string, p: nat, c': string, q: nat, n: nat, k: nat)
    requires Copied(c, p, c', q, n) && k <= n
    ensures Copied(c, p + k, c', q + k, n - k)
  {
    forall x | p + k <= x < p + n ensures c'[q + k + (x - (p + k))] == c[x] {
      assert c'[q + (x - p)] == c[x];
    }
  }

  lemma {:induction false} CloseCopied(c: string, p: nat, c': string, q: nat, n: nat)
    requires Copied(c, p, c', q, n + 1) && ClosingQuote(c, p) == Some(p + n)
    ensures ClosingQuote(c', q) == Some(q + n)
    decreases n
  {
    assert c'[q + (p - p)] == c[p] && c'[q + (p + n - p)] == c[p + n];
    if c[p] != '\"' {
      var step := if c[p] == '\\' then 2 else 1;
      CopiedTail(c, p, c', q, n + 1, step);
      CloseCopied(c, p + step, c', q + step, n - step);
    }
  }

  lemma {:induction false} DecodeCopied(c: string, p: nat, c': string, q: nat, n: nat)
    requires Copied(c, p, c', q, n + 1)
    ensures Decode(c', q, q + n) == Decode(c, p, p + n)
    decreases n
  {
    if n > 0 {
      assert c'[q + (p - p)] == c[p] && c'[q + (p + 1 - p)] == c[p + 1];
      CopiedPart(c, p, c', q, n + 1, 0, n);
      LiteralCopied(c, p, c', q, n);
      var literal := Literal(c, p, p + n);
      var step := if c[p] != '\\' then 1 else if c[p + 1] != 'u' then 2 else if literal == None then 0 else literal.value.1;
      if 0 < step <= n {
        CopiedTail(c, p, c', q, n + 1, step);
        DecodeCopied(c, p + step, c', q + step, n - step);
      }
    }
  }

  lemma {:induction false} HexCopied(c: string, p: nat, c': string, q: nat, n: nat)
    requires Copied(c, p, c', q, n)
    ensures HexNumber(c', q, n) == HexNumber(c, p, n)
  {
    if n > 0 {
      HexCopied(c, p, c', q, n - 1);
      assert c'[q + (p + (n - 1) - p)] == c[p + (n - 1)];
    }
  }

  lemma CopiedPart(c: string, p: nat, c': string, q: nat, n: nat, k: nat, m: nat)
    requires Copied(c, p, c', q, n) && k + m <= n
    ensures Copied(c, p + k, c', q + k, m)
  {
    CopiedTail(c, p, c', q, n, k);
  }

  lemma LiteralCopied(c: string, p: nat, c': string, q: nat, n: nat)
    requires Copied(c, p, c', q, n)
    ensures Literal(c', q, q + n) == Literal(c, p, p + n)
  {
    if n >= 6 {
      CopiedPart(c, p, c', q, n, 2, 4);
      HexCopied(c, p + 2, c', q + 2, 4);
    }
    if n >= 12 {
      assert c'[q + (p + 6 - p)] == c[p + 6] && c'[q + (p + 7 - p)] == c[p + 7];
      CopiedPart(c, p, c', q, n, 8, 4);
      HexCopied(c, p + 8, c', q + 8, 4);
    }
  }

  lemma StringSim(c: string, o: nat, c': string, q: nat)
    requires Terminated(c) && o < |c| && Rel(c, o, c', q) && ParseStringAt(c, o).Parsed?
    ensures q < |c'| && c'[q] == '\"'
    ensures var r, r' := ParseStringAt(c, o), ParseStringAt(c', q);
      r'.Parsed? && r'.value == r.value && r'.offset < |c'| && Rel(c, r.offset, c', r'.offset)
  {
    var n := ClosingQuote(c, o + 1).value - (o + 1);
    EndsAgree(c, o + 1);
    LeavesString(c, o, c', q);
    forall k | o + 1 <= k < o + 1 + (n + 1) ensures c'[q + 1 + (k - (o + 1))] == c[k] {
      assert c'[q + (k - o)] == c[k];
    }
    assert c'[q + (o - o)] == c[o];
    StringCopied(c, o, c', q, n);
  }

  lemma StringCopied(c: string, o: nat, c': string, q: nat, n: nat)
    requires Terminated(c) && Terminated(c') && o < |c| && q < |c'| && c[o] == '\"' && c'[q] == '\"'
    requires Copied(c, o + 1, c', q + 1, n + 1) && ClosingQuote(c, o + 1) == Some(o + 1 + n) && ParseStringAt(c, o).Parsed?
    ensures var r, r' := ParseStringAt(c, o), ParseStringAt(c', q);
      r'.Parsed? && r'.value == r.value && r.offset == o + n + 2 && r'.offset == q + n + 2
  {
    CloseCopied(c, o + 1, c', q + 1, n);
    DecodeCopied(c, o + 1, c', q + 1, n);
  }

  // ---------- values ----------

  /** What parses starts with a visible character other than '/'. */
  lemma ValueVisible(c: string, o: nat, d: nat, strtod: Strtod)
    requires Terminated(c) && Reads(strtod) && o < |c| && ParseValueAt(c, o, d, strtod).Parsed?
    ensures c[o] > ' ' && c[o] != '/'
  {
    if ParseWord(c, o).Parsed? {
      NotNull(c, o);
    }
  }

  ghost predicate Texts(c: string, c': string, strtod: Strtod) {
    Terminated(c) && Terminated(c') && Reads(strtod)
  }

  /** `r` was parsed from the one text, `r'` from the other. */
  ghost predicate Same<T>(c: string, r: Parsed<T>, c': string, r': Parsed<T>)
    requires Terminated(c)
  {
    r.Parsed? && r'.Parsed? && r.value == r'.value && r.offset < |c| && r'.offset < |c'| && Rel(c, r.offset, c', r'.offset)
  }

  lemma {:induction false} ValueSim(c: string, o: nat, d: nat, strtod: Strtod, c': string, q: nat, r: Parsed<Json>) returns (r': Parsed<Json>)
    requires Texts(c, c', strtod) && o < |c| && Rel(c, o, c', q)
    requires r == ParseValueAt(c, o, d, strtod) && r.Parsed? && Follows(c, r.offset)
    ensures q < |c'| && r' == ParseValueAt(c', q, d, strtod) && Same(c, r, c', r')
    decreases |c| - o, 4
  {
    ValueVisible(c, o, d, strtod);
    VisibleKept(c, o, c', q);
    if ParseWord(c, o).Parsed? {
      WordSim(c, o, c', q);
    } else if c[o] == '\"' {
      StringSim(c, o, c', q);
      NotAWord(c', q);
    } else if c[o] == '[' {
      r' := ArraySim(c, o, d, strtod, c', q, r);
      NotAWord(c', q);
    } else if c[o] == '{' {
      r' := ObjectSim(c, o, d, strtod, c', q, r);
      NotAWord(c', q);
    } else {
      NumberSim(c, o, c', q, strtod);
      NotAWord(c', q);
    }
    r' := ParseValueAt(c', q, d, strtod);
  }

  /** One visible character that is copied. */
  lemma MarkSim(c: string, o: nat, c': string, q: nat)
    requires Terminated(c) && o < |c| && Rel(c, o, c', q) && PlainChar(c[o])
    ensures q + 1 < |c'| && o + 1 < |c| && c'[q] == c[o] && Rel(c, o + 1, c', q + 1)
  {
    LeavesChar(c, o, c', q);
  }

  lemma SkipOnce(c: string, p: nat)
    requires p < |c|
    ensures Skip(c, Skip(c, p)) == Skip(c, p)
  {
    var s := Skip(c, p);
    if c[s] > ' ' {
      SkipFixed(c, s);
    }
  }

  /** A value, and the visible character behind it. */
  lemma {:induction false} ValueAndMark(c: string, o: nat, d: nat, strtod: Strtod, c': string, q: nat, r: Parsed<Json>) returns (r': Parsed<Json>)
    requires Texts(c, c', strtod) && o < |c| && q < |c'| && Rel(c, o, c', q)
    requires r == ParseValueAt(c, Skip(c, o), d, strtod) && r.Parsed? && Follows(c, r.offset)
    ensures r' == ParseValueAt(c', Skip(c', q), d, strtod) && Same(c, r, c', r')
    ensures Rel(c, Skip(c, r.offset), c', Skip(c', r'.offset)) && c'[Skip(c', r'.offset)] == c[Skip(c, r.offset)]
    decreases |c| - o, 5
  {
    ValueVisible(c, Skip(c, o), d, strtod);
    SkipSim(c, o, c', q);
    r' := ValueSim(c, Skip(c, o), d, strtod, c', Skip(c', q), r);
    SkipSim(c, r.offset, c', r'.offset);
  }

  // ---------- arrays ----------

  /** parse_array in terms of its loop. */
  lemma ArrayUnfold(c: string, o: nat, d: nat, strtod: Strtod, first: nat)
    requires Terminated(c) && Reads(strtod) && o + 1 < |c| && c[o] == '[' && first == Skip(c, o + 1)
    ensures d >= NESTING_LIMIT ==> ParseArrayAt(c, o, d, strtod) == Failed
    ensures d < NESTING_LIMIT && c[first] == ']' ==> ParseArrayAt(c, o, d, strtod) == Parsed(Array([]), first + 1)
    ensures d < NESTING_LIMIT && c[first] != ']' ==>
      var items := ParseItems(c, first - 1, d + 1, strtod);
      ParseArrayAt(c, o, d, strtod) ==
        (if items == Failed || c[items.offset] != ']' then Failed else Parsed(Array(items.value), items.offset + 1))
  {
  }

  /** Behind the opening bracket both texts reach the same visible character. */
  lemma ArrayOpened(c: string, o: nat, d: nat, strtod: Strtod, c': string, q: nat, r: Parsed<Json>)
    returns (first: nat, first': nat, items: Parsed<seq<Json>>)
    requires Texts(c, c', strtod) && o < |c| && c[o] == '[' && Rel(c, o, c', q)
    requires r == ParseArrayAt(c, o, d, strtod) && r.Parsed?
    ensures d < NESTING_LIMIT && o + 1 < |c| && q + 1 < |c'| && c'[q] == '['
    ensures o < first == Skip(c, o + 1) == Skip(c, first) && q < first' == Skip(c', q + 1) == Skip(c', first')
    ensures Rel(c, first, c', first') && c'[first'] == c[first]
    ensures c[first] == ']' ==> r == Parsed(Array([]), first + 1)
    ensures c[first] != ']' ==>
      && items == ParseItems(c, first - 1, d + 1, strtod) && items.Parsed? && c[items.offset] == ']'
      && r == Parsed(Array(items.value), items.offset + 1)
  {
    MarkSim(c, o, c', q);
    first := Skip(c, o + 1);
    ArrayUnfold(c, o, d, strtod, first);
    SkipOnce(c, o + 1);
    ArrayVisible(c, first, d, strtod);
    SkipSim(c, o + 1, c', q + 1);
    first' := Skip(c', q + 1);
    SkipOnce(c', q + 1);
    items := ParseItems(c, first - 1, d + 1, strtod);
  }

  lemma ArrayVisible(c: string, first: nat, d: nat, strtod: Strtod)
    requires Terminated(c) && Reads(strtod) && 0 < first < |c| && Skip(c, first) == first
    requires c[first] == ']' || ParseItems(c, first - 1, d + 1, strtod).Parsed?
    ensures c[first] > ' ' && c[first] != '/'
  {
    if c[first] != ']' {
      ItemsVisible(c, first - 1, d + 1, strtod);
    }
  }

  lemma ArrayValue(c: string, o: nat, d: nat, strtod: Strtod, first: nat, items: Parsed<seq<Json>>)
    requires Terminated(c) && Reads(strtod) && o + 1 < |c| && c[o] == '[' && first == Skip(c, o + 1) && first > 0
    requires d < NESTING_LIMIT && c[first] != ']' && items == ParseItems(c, first - 1, d + 1, strtod)
    requires items.Parsed? && c[items.offset] == ']'
    ensures ParseArrayAt(c, o, d, strtod) == Parsed(Array(items.value), items.offset + 1)
  {
    ArrayUnfold(c, o, d, strtod, first);
  }

  lemma {:induction false} ArraySim(c: string, o: nat, d: nat, strtod: Strtod, c': string, q: nat, r: Parsed<Json>) returns (r': Parsed<Json>)
    requires Texts(c, c', strtod) && o < |c| && c[o] == '[' && Rel(c, o, c', q)
    requires r == ParseArrayAt(c, o, d, strtod) && r.Parsed?
    ensures q < |c'| && c'[q] == '[' && r' == ParseArrayAt(c', q, d, strtod) && Same(c, r, c', r')
    decreases |c| - o, 3
  {
    var first, first', items := ArrayOpened(c, o, d, strtod, c', q, r);
    if c[first] == ']' {
      ArrayUnfold(c', q, d, strtod, first');
      MarkSim(c, first, c', first');
      r' := Parsed(Array([]), first' + 1);
    } else {
      r' := ArrayRest(c, first, d, strtod, c', q, first', items);
    }
  }

  /** The loop and the closing bracket. */
  lemma {:induction false} ArrayRest(c: string, first: nat, d: nat, strtod: Strtod, c': string, q: nat, first': nat, items: Parsed<seq<Json>>)
    returns (r': Parsed<Json>)
    requires Texts(c, c', strtod) && 0 < first < |c| && q + 1 < |c'| && c'[q] == '[' && d < NESTING_LIMIT
    requires q < first' == Skip(c', q + 1) == Skip(c', first') && c'[first'] != ']' && first == Skip(c, first) && Rel(c, first, c', first')
    requires items == ParseItems(c, first - 1, d + 1, strtod) && items.Parsed? && c[items.offset] == ']'
    ensures r' == ParseArrayAt(c', q, d, strtod) && r'.Parsed? && r'.value == Array(items.value)
    ensures items.offset + 1 < |c| && r'.offset < |c'| && Rel(c, items.offset + 1, c', r'.offset)
    decreases |c| - (first - 1), 2
  {
    var items' := ItemsSim(c, first - 1, d + 1, strtod, c', first' - 1, items);
    r' := ArrayEnd(c, d, strtod, c', q, first', items, items');
  }

  lemma ArrayEnd(c: string, d: nat, strtod: Strtod, c': string, q: nat, first': nat, items: Parsed<seq<Json>>, items': Parsed<seq<Json>>)
    returns (r': Parsed<Json>)
    requires Terminated(c) && Terminated(c') && Reads(strtod) && q + 1 < |c'| && c'[q] == '[' && d < NESTING_LIMIT
    requires q < first' == Skip(c', q + 1) && c'[first'] != ']' && items' == ParseItems(c', first' - 1, d + 1, strtod)
    requires Same(c, items, c', items') && c[items.offset] == ']' && c'[items'.offset] == ']'
    ensures r' == ParseArrayAt(c', q, d, strtod) && r'.Parsed? && r'.value == Array(items.value)
    ensures items.offset + 1 < |c| && r'.offset < |c'| && Rel(c, items.offset + 1, c', r'.offset)
  {
    ArrayValue(c', q, d, strtod, first', items');
    MarkSim(c, items.offset, c', items'.offset);
    r' := Parsed(Array(items'.value), items'.offset + 1);
  }

  /** The loop, in terms of its first turn and the rest. */
  lemma ItemsFrom(c: string, o: nat, d: nat, strtod: Strtod, item: Parsed<Json>, rest: Parsed<seq<Json>>)
    requires Terminated(c) && Reads(strtod) && o + 1 < |c| && item == ParseItem(c, o, d, strtod) && item.Parsed? && item.offset < |c|
    requires if c[item.offset] == ',' then item.offset + 1 < |c| && rest == ParseItems(c, item.offset, d, strtod) else rest == Parsed([], item.offset)
    ensures ParseItems(c, o, d, strtod) == Join([item.value], rest)
  {
    ItemsUnfold(c, o, d, strtod);
  }

  lemma FirstItem(c: string, o: nat, d: nat, strtod: Strtod, r: Parsed<seq<Json>>) returns (item: Parsed<Json>, rest: Parsed<seq<Json>>)
    requires Terminated(c) && Reads(strtod) && o + 1 < |c|
    requires r == ParseItems(c, o, d, strtod) && r.Parsed? && c[r.offset] == ']'
    ensures item == ParseItem(c, o, d, strtod) && item.Parsed? && o < item.offset < |c| && (c[item.offset] == ',' || c[item.offset] == ']')
    ensures c[item.offset] == ',' ==> item.offset + 1 < |c| && rest == ParseItems(c, item.offset, d, strtod)
    ensures c[item.offset] == ']' ==> rest == Parsed([], item.offset)
    ensures rest.Parsed? && r == Join([item.value], rest)
  {
    ItemsUnfold(c, o, d, strtod);
    item := ParseItem(c, o, d, strtod);
    rest := if c[item.offset] == ',' then ParseItems(c, item.offset, d, strtod) else Parsed([], item.offset);
  }

  /** From a comma to the next visible character. */
  lemma NextItem(c: string, comma: nat, d: nat, strtod: Strtod, c': string, comma': nat)
    requires Texts(c, c', strtod) && comma < |c| && c[comma] == ',' && Rel(c, comma, c', comma')
    requires comma + 1 < |c| && ParseItems(c, comma, d, strtod).Parsed?
    ensures comma' + 1 < |c'| && Rel(c, Skip(c, comma + 1), c', Skip(c', comma' + 1))
  {
    MarkSim(c, comma, c', comma');
    ItemsVisible(c, comma, d, strtod);
    SkipSim(c, comma + 1, c', comma' + 1);
  }

  lemma {:induction false} ItemsSim(c: string, o: nat, d: nat, strtod: Strtod, c': string, q: nat, r: Parsed<seq<Json>>) returns (r': Parsed<seq<Json>>)
    requires Texts(c, c', strtod) && o + 1 < |c| && q + 1 < |c'| && Rel(c, Skip(c, o + 1), c', Skip(c', q + 1))
    requires r == ParseItems(c, o, d, strtod) && r.Parsed? && c[r.offset] == ']'
    ensures r' == ParseItems(c', q, d, strtod) && Same(c, r, c', r') && c'[r'.offset] == ']'
    decreases |c| - o, 1
  {
    var item, rest := FirstItem(c, o, d, strtod, r);
    var item' := ItemSim(c, o, d, strtod, c', q, item);
    var rest' := RestItems(c, item.offset, d, strtod, c', item'.offset, rest);
    ItemsFrom(c', q, d, strtod, item', rest');
    r' := Join([item'.value], rest');
  }

  /** What follows the first turn of the loop. */
  lemma {:induction false} RestItems(c: string, o: nat, d: nat, strtod: Strtod, c': string, q: nat, rest: Parsed<seq<Json>>) returns (rest': Parsed<seq<Json>>)
    requires Texts(c, c', strtod) && o < |c| && q < |c'| && Rel(c, o, c', q) && c'[q] == c[o] && (c[o] == ',' || c[o] == ']')
    requires rest.Parsed? && rest.offset < |c| && c[rest.offset] == ']'
    requires if c[o] == ',' then o + 1 < |c| && rest == ParseItems(c, o, d, strtod) else rest == Parsed([], o)
    ensures Same(c, rest, c', rest') && c'[rest'.offset] == ']'
    ensures if c'[q] == ',' then q + 1 < |c'| && rest' == ParseItems(c', q, d, strtod) else rest' == Parsed([], q)
    decreases |c| - o, 2
  {
    if c[o] == ',' {
      NextItem(c, o, d, strtod, c', q);
      rest' := ItemsSim(c, o, d, strtod, c', q, rest);
    } else {
      rest' := Parsed([], q);
    }
  }

  lemma ItemsVisible(c: string, o: nat, d: nat, strtod: Strtod)
    requires Terminated(c) && Reads(strtod) && o + 1 < |c| && ParseItems(c, o, d, strtod).Parsed?
    ensures c[Skip(c, o + 1)] > ' ' && c[Skip(c, o + 1)] != '/'
  {
    ItemsUnfold(c, o, d, strtod);
    ValueVisible(c, Skip(c, o + 1), d, strtod);
  }

  lemma {:induction false} ItemSim(c: string, o: nat, d: nat, strtod: Strtod, c': string, q: nat, r: Parsed<Json>) returns (r': Parsed<Json>)
    requires Texts(c, c', strtod) && o + 1 < |c| && q + 1 < |c'| && Rel(c, Skip(c, o + 1), c', Skip(c', q + 1))
    requires r == ParseItem(c, o, d, strtod) && r.Parsed? && r.offset < |c| && (c[r.offset] == ',' || c[r.offset] == ']')
    ensures r' == ParseItem(c', q, d, strtod) && Same(c, r, c', r') && c'[r'.offset] == c[r.offset]
    decreases |c| - o, 0
  {
    var v := ParseValueAt(c, Skip(c, o + 1), d, strtod);
    var v' := ValueSim(c, Skip(c, o + 1), d, strtod, c', Skip(c', q + 1), v);
    SkipSim(c, v.offset, c', v'.offset);
    r' := Parsed(v'.value, Skip(c', v'.offset));
  }

  // ---------- objects ----------

  /** parse_object in terms of its loop. */
  lemma ObjectUnfold(c: string, o: nat, d: nat, strtod: Strtod, first: nat)
    requires Terminated(c) && Reads(strtod) && o + 1 < |c| && c[o] == '{' && first == Skip(c, o + 1)
    ensures d >= NESTING_LIMIT ==> ParseObjectAt(c, o, d, strtod) == Failed
    ensures d < NESTING_LIMIT && c[first] == '}' ==> ParseObjectAt(c, o, d, strtod) == Parsed(Object([]), first + 1)
    ensures d < NESTING_LIMIT && c[first] != '}' ==>
      var members := ParseMembers(c, first - 1, d + 1, strtod);
      ParseObjectAt(c, o, d, strtod) ==
        (if members == Failed || c[members.offset] != '}' then Failed else Parsed(Object(members.value), members.offset + 1))
  {
  }

  /** Behind the opening bracket both texts reach the same visible character. */
  lemma ObjectOpened(c: string, o: nat, d: nat, strtod: Strtod, c': string, q: nat, r: Parsed<Json>)
    returns (first: nat, first': nat, members: Parsed<seq<Member<Json>>>)
    requires Texts(c, c', strtod) && o < |c| && c[o] == '{' && Rel(c, o, c', q)
    requires r == ParseObjectAt(c, o, d, strtod) && r.Parsed?
    ensures d < NESTING_LIMIT && o + 1 < |c| && q + 1 < |c'| && c'[q] == '{'
    ensures o < first == Skip(c, o + 1) == Skip(c, first) && q < first' == Skip(c', q + 1) == Skip(c', first')
    ensures Rel(c, first, c', first') && c'[first'] == c[first]
    ensures c[first] == '}' ==> r == Parsed(Object([]), first + 1)
    ensures c[first] != '}' ==>
      && members == ParseMembers(c, first - 1, d + 1, strtod) && members.Parsed? && c[members.offset] == '}'
      && r == Parsed(Object(members.value), members.offset + 1)
  {
    MarkSim(c, o, c', q);
    first := Skip(c, o + 1);
    ObjectUnfold(c, o, d, strtod, first);
    SkipOnce(c, o + 1);
    ObjectVisible(c, first, d, strtod);
    SkipSim(c, o + 1, c', q + 1);
    first' := Skip(c', q + 1);
    SkipOnce(c', q + 1);
    members := ParseMembers(c, first - 1, d + 1, strtod);
  }

  lemma ObjectVisible(c: string, first: nat, d: nat, strtod: Strtod)
    requires Terminated(c) && Reads(strtod) && 0 < first < |c| && Skip(c, first) == first
    requires c[first] == '}' || ParseMembers(c, first - 1, d + 1, strtod).Parsed?
    ensures c[first] > ' ' && c[first] != '/'
  {
    if c[first] != '}' {
      MembersVisible(c, first - 1, d + 1, strtod);
    }
  }

  lemma ObjectValue(c: string, o: nat, d: nat, strtod: Strtod, first: nat, members: Parsed<seq<Member<Json>>>)
    requires Terminated(c) && Reads(strtod) && o + 1 < |c| && c[o] == '{' && first == Skip(c, o + 1) && first > 0
    requires d < NESTING_LIMIT && c[first] != '}' && members == ParseMembers(c, first - 1, d + 1, strtod)
    requires members.Parsed? && c[members.offset] == '}'
    ensures ParseObjectAt(c, o, d, strtod) == Parsed(Object(members.value), members.offset + 1)
  {
    ObjectUnfold(c, o, d, strtod, first);
  }

  lemma {:induction false} ObjectSim(c: string, o: nat, d: nat, strtod: Strtod, c': string, q: nat, r: Parsed<Json>) returns (r': Parsed<Json>)
    requires Texts(c, c', strtod) && o < |c| && c[o] == '{' && Rel(c, o, c', q)
    requires r == ParseObjectAt(c, o, d, strtod) && r.Parsed?
    ensures q < |c'| && c'[q] == '{' && r' == ParseObjectAt(c', q, d, strtod) && Same(c, r, c', r')
    decreases |c| - o, 3
  {
    var first, first', members := ObjectOpened(c, o, d, strtod, c', q, r);
    if c[first] == '}' {
      ObjectUnfold(c', q, d, strtod, first');
      MarkSim(c, first, c', first');
      r' := Parsed(Object([]), first' + 1);
    } else {
      r' := ObjectRest(c, first, d, strtod, c', q, first', members);
    }
  }

  /** The loop and the closing bracket. */
  lemma {:induction false} ObjectRest(c: string, first: nat, d: nat, strtod: Strtod, c': string, q: nat, first': nat, members: Parsed<seq<Member<Json>>>)
    returns (r': Parsed<Json>)
    requires Texts(c, c', strtod) && 0 < first < |c| && q + 1 < |c'| && c'[q] == '{' && d < NESTING_LIMIT
    requires q < first' == Skip(c', q + 1) == Skip(c', first') && c'[first'] != '}' && first == Skip(c, first) && Rel(c, first, c', first')
    requires members == ParseMembers(c, first - 1, d + 1, strtod) && members.Parsed? && c[members.offset] == '}'
    ensures r' == ParseObjectAt(c', q, d, strtod) && r'.Parsed? && r'.value == Object(members.value)
    ensures members.offset + 1 < |c| && r'.offset < |c'| && Rel(c, members.offset + 1, c', r'.offset)
    decreases |c| - (first - 1), 2
  {
    var members' := MembersSim(c, first - 1, d + 1, strtod, c', first' - 1, members);
    r' := ObjectEnd(c, d, strtod, c', q, first', members, members');
  }

  lemma ObjectEnd(c: string, d: nat, strtod: Strtod, c': string, q: nat, first': nat, members: Parsed<seq<Member<Json>>>, members': Parsed<seq<Member<Json>>>)
    returns (r': Parsed<Json>)
    requires Terminated(c) && Terminated(c') && Reads(strtod) && q + 1 < |c'| && c'[q] == '{' && d < NESTING_LIMIT
    requires q < first' == Skip(c', q + 1) && c'[first'] != '}' && members' == ParseMembers(c', first' - 1, d + 1, strtod)
    requires Same(c, members, c', members') && c[members.offset] == '}' && c'[members'.offset] == '}'
    ensures r' == ParseObjectAt(c', q, d, strtod) && r'.Parsed? && r'.value == Object(members.value)
    ensures members.offset + 1 < |c| && r'.offset < |c'| && Rel(c, members.offset + 1, c', r'.offset)
  {
    ObjectValue(c', q, d, strtod, first', members');
    MarkSim(c, members.offset, c', members'.offset);
    r' := Parsed(Object(members'.value), members'.offset + 1);
  }

  /** The loop, in terms of its first turn and the rest. */
  lemma MembersFrom(c: string, o: nat, d: nat, strtod: Strtod, m: Parsed<Member<Json>>, rest: Parsed<seq<Member<Json>>>)
    requires Terminated(c) && Reads(strtod) && o + 1 < |c| && m == ParseMember(c, o, d, strtod) && m.Parsed? && m.offset < |c|
    requires if c[m.offset] == ',' then m.offset + 1 < |c| && rest == ParseMembers(c, m.offset, d, strtod) else rest == Parsed([], m.offset)
    ensures ParseMembers(c, o, d, strtod) == Join([m.value], rest)
  {
    MembersUnfold(c, o, d, strtod);
  }

  lemma FirstMember(c: string, o: nat, d: nat, strtod: Strtod, r: Parsed<seq<Member<Json>>>) returns (m: Parsed<Member<Json>>, rest: Parsed<seq<Member<Json>>>)
    requires Terminated(c) && Reads(strtod) && o + 1 < |c|
    requires r == ParseMembers(c, o, d, strtod) && r.Parsed? && c[r.offset] == '}'
    ensures m == ParseMember(c, o, d, strtod) && m.Parsed? && o < m.offset < |c| && (c[m.offset] == ',' || c[m.offset] == '}')
    ensures c[m.offset] == ',' ==> m.offset + 1 < |c| && rest == ParseMembers(c, m.offset, d, strtod)
    ensures c[m.offset] == '}' ==> rest == Parsed([], m.offset)
    ensures rest.Parsed? && r == Join([m.value], rest)
  {
    MembersUnfold(c, o, d, strtod);
    m := ParseMember(c, o, d, strtod);
    rest := if c[m.offset] == ',' then ParseMembers(c, m.offset, d, strtod) else Parsed([], m.offset);
  }

  /** From a comma to the next visible character. */
  lemma NextMember(c: string, comma: nat, d: nat, strtod: Strtod, c': string, comma': nat)
    requires Texts(c, c', strtod) && comma < |c| && c[comma] == ',' && Rel(c, comma, c', comma')
    requires comma + 1 < |c| && ParseMembers(c, comma, d, strtod).Parsed?
    ensures comma' + 1 < |c'| && Rel(c, Skip(c, comma + 1), c', Skip(c', comma' + 1))
  {
    MarkSim(c, comma, c', comma');
    MembersVisible(c, comma, d, strtod);
    SkipSim(c, comma + 1, c', comma' + 1);
  }

  lemma {:induction false} MembersSim(c: string, o: nat, d: nat, strtod: Strtod, c': string, q: nat, r: Parsed<seq<Member<Json>>>) returns (r': Parsed<seq<Member<Json>>>)
    requires Texts(c, c', strtod) && o + 1 < |c| && q + 1 < |c'| && Rel(c, Skip(c, o + 1), c', Skip(c', q + 1))
    requires r == ParseMembers(c, o, d, strtod) && r.Parsed? && c[r.offset] == '}'
    ensures r' == ParseMembers(c', q, d, strtod) && Same(c, r, c', r') && c'[r'.offset] == '}'
    decreases |c| - o, 1
  {
    var m, rest := FirstMember(c, o, d, strtod, r);
    var m' := MemberSim(c, o, d, strtod, c', q, m);
    var rest' := RestMembers(c, m.offset, d, strtod, c', m'.offset, rest);
    MembersFrom(c', q, d, strtod, m', rest');
    r' := Join([m'.value], rest');
  }

  /** What follows the first turn of the loop. */
  lemma {:induction false} RestMembers(c: string, o: nat, d: nat, strtod: Strtod, c': string, q: nat, rest: Parsed<seq<Member<Json>>>) returns (rest': Parsed<seq<Member<Json>>>)
    requires Texts(c, c', strtod) && o < |c| && q < |c'| && Rel(c, o, c', q) && c'[q] == c[o] && (c[o] == ',' || c[o] == '}')
    requires rest.Parsed? && rest.offset < |c| && c[rest.offset] == '}'
    requires if c[o] == ',' then o + 1 < |c| && rest == ParseMembers(c, o, d, strtod) else rest == Parsed([], o)
    ensures Same(c, rest, c', rest') && c'[rest'.offset] == '}'
    ensures if c'[q] == ',' then q + 1 < |c'| && rest' == ParseMembers(c', q, d, strtod) else rest' == Parsed([], q)
    decreases |c| - o, 2
  {
    if c[o] == ',' {
      NextMember(c, o, d, strtod, c', q);
      rest' := MembersSim(c, o, d, strtod, c', q, rest);
    } else {
      rest' := Parsed([], q);
    }
  }

  lemma MembersVisible(c: string, o: nat, d: nat, strtod: Strtod)
    requires Terminated(c) && Reads(strtod) && o + 1 < |c| && ParseMembers(c, o, d, strtod).Parsed?
    ensures c[Skip(c, o + 1)] == '\"'
  {
    MembersUnfold(c, o, d, strtod);
  }

  /** The name and its colon. */
  lemma NameSim(c: string, o: nat, c': string, q: nat, name: string, colon: nat) returns (colon': nat)
    requires Terminated(c) && Terminated(c') && o + 1 < |c| && q + 1 < |c'| && Rel(c, Skip(c, o + 1), c', Skip(c', q + 1))
    requires ParseName(c, o) == Parsed(name, colon) && colon + 1 < |c|
    ensures colon' + 1 < |c'| && ParseName(c', q) == Parsed(name, colon') && Rel(c, colon + 1, c', colon' + 1)
  {
    StringSim(c, Skip(c, o + 1), c', Skip(c', q + 1));
    SkipSim(c, ParseStringAt(c, Skip(c, o + 1)).offset, c', ParseStringAt(c', Skip(c', q + 1)).offset);
    colon' := ParseName(c', q).offset;
    MarkSim(c, colon, c', colon');
  }

  /** The parts of a member that was parsed. */
  lemma MemberInside(c: string, o: nat, d: nat, strtod: Strtod, r: Parsed<Member<Json>>) returns (colon: nat, v: Parsed<Json>)
    requires Terminated(c) && Reads(strtod) && o + 1 < |c|
    requires r == ParseMember(c, o, d, strtod) && r.Parsed?
    ensures ParseName(c, o) == Parsed(r.value.key, colon) && o < colon && colon + 1 < |c|
    ensures v == ParseValueAt(c, Skip(c, colon + 1), d, strtod) && v.Parsed? && v.offset < |c|
    ensures r.value.value == v.value && r.offset == Skip(c, v.offset)
  {
    colon := ParseName(c, o).offset;
    v := ParseValueAt(c, Skip(c, colon + 1), d, strtod);
  }

  lemma MemberOutside(c: string, o: nat, d: nat, strtod: Strtod, name: string, colon: nat, v: Parsed<Json>)
    requires Terminated(c) && Reads(strtod) && o + 1 < |c| && ParseName(c, o) == Parsed(name, colon) && colon + 1 < |c|
    requires v == ParseValueAt(c, Skip(c, colon + 1), d, strtod) && v.Parsed? && v.offset < |c|
    ensures ParseMember(c, o, d, strtod) == Parsed(Member(name, v.value), Skip(c, v.offset))
  {
  }

  lemma {:induction false} MemberSim(c: string, o: nat, d: nat, strtod: Strtod, c': string, q: nat, r: Parsed<Member<Json>>)
    returns (r': Parsed<Member<Json>>)
    requires Texts(c, c', strtod) && o + 1 < |c| && q + 1 < |c'| && Rel(c, Skip(c, o + 1), c', Skip(c', q + 1))
    requires r == ParseMember(c, o, d, strtod) && r.Parsed? && r.offset < |c| && (c[r.offset] == ',' || c[r.offset] == '}')
    ensures r' == ParseMember(c', q, d, strtod) && Same(c, r, c', r') && c'[r'.offset] == c[r.offset]
    decreases |c| - o, 0
  {
    var colon, v := MemberInside(c, o, d, strtod, r);
    var colon' := NameSim(c, o, c', q, r.value.key, colon);
    var v' := ValueAndMark(c, colon + 1, d, strtod, c', colon' + 1, v);
    MemberOutside(c', q, d, strtod, r.value.key, colon', v');
    r' := Parsed(Member(r.value.key, v'.value), Skip(c', v'.offset));
  }

  // ---------- whole texts ----------

  /** If a text parses, with nothing but white space behind it, and none of its strings ends in an escaped backslash, then what
      Minify makes of it parses to the same tree. */
  lemma MinifiedParsesAlike(text: string, strtod: Strtod)
    requires NUL !in text && Reads(strtod) && Clean(text + [NUL], 0)
    requires ParseText(text, strtod, true).Some?
    ensures Terminated(text + [NUL]) && NUL !in Minified(text + [NUL], 0)
    ensures ParseText(Minified(text + [NUL], 0), strtod, true) == ParseText(text, strtod, true)
  {
    var c := text + [NUL];
    assert forall i :: 0 <= i < |text| ==> text[i] in text;
    MinifiedShorter(c, 0);
    var m := Minified(c, 0);
    var c' := m + [NUL];
    assert forall i :: 0 <= i < |m| ==> m[i] in m;
    AtFrom(c', 0, m);
    var start, start' := MarkOrNot(c, c', strtod);
    var v := ParseValueAt(c, Skip(c, start), 0, strtod);
    var v' := ValueAndMark(c, start, 0, strtod, c', start', v);
  }

  /** A byte order mark stays where it is, and none appears. */
  lemma MarkOrNot(c: string, c': string, strtod: Strtod) returns (start: nat, start': nat)
    requires Texts(c, c', strtod) && Rel(c, 0, c', 0)
    requires var s := if |c| > 4 && At(c, 0, ByteOrderMark) then 3 else 0; ParseValueAt(c, Skip(c, s), 0, strtod).Parsed?
    ensures start == if |c| > 4 && At(c, 0, ByteOrderMark) then 3 else 0
    ensures start' == if |c'| > 4 && At(c', 0, ByteOrderMark) then 3 else 0
    ensures start < |c| && start' < |c'| && Rel(c, start, c', start')
  {
    start := if |c| > 4 && At(c, 0, ByteOrderMark) then 3 else 0;
    start' := start;
    var v := Skip(c, start);
    ValueVisible(c, v, 0, strtod);
    if start == 3 {
      WordKept(c, 0, c', 0, ByteOrderMark);
      SkipSim(c, 3, c', 3);
    } else {
      SkipSim(c, 0, c', 0);
      if At(c', 0, ByteOrderMark) {
        AtIndices(c', 0, ByteOrderMark);
        assert c'[0 + 0] == ByteOrderMark[0];
        SkipFixed(c', 0);
        ValueStarts(c, v, strtod);
        assert false;
      }
    }
  }

  lemma ValueStarts(c: string, o: nat, strtod: Strtod)
    requires Terminated(c) && Reads(strtod) && o < |c| && ParseValueAt(c, o, 0, strtod).Parsed?
    ensures (c[o] as int) < 0x80
  {
    if ParseWord(c, o).Parsed? {
      NotNull(c, o);
    }
  }

  /** An escaped backslash within a string is none of its business: ["C:\\t"]. */
  lemma PathIsClean(c: string)
    requires c == ['[', '\"', 'C', ':', '\\', '\\', 't', '\"', ']', NUL]
    ensures Terminated(c) && Clean(c, 0)
  {
    assert ClosingQuote(c, 6) == Some(7);
    assert ClosingQuote(c, 2) == ClosingQuote(c, 3) == ClosingQuote(c, 4) == ClosingQuote(c, 6);
    assert Clean(c, 9) && Clean(c, 8);
    assert Clean(c, 1);
  }

  /** Nor need one at the end of a string do harm, if nothing behind it can be taken out: ["\\"] stays as it is. */
  lemma PairMayDoNoHarm(c: string)
    requires c == ['[', '\"', '\\', '\\', '\"', ']', NUL]
    ensures Terminated(c) && !Clean(c, 0) && Minified(c, 0) == c[..6]
  {
    assert ClosingQuote(c, 4) == Some(4) && ClosingQuote(c, 2) == ClosingQuote(c, 4);
    assert !Clean(c, 1);
    assert StringEnd(c, 6) == 6 && StringEnd(c, 5) == 6 && StringEnd(c, 3) == 6 && StringEnd(c, 2) == 6;
    assert Minified(c, 6) == "" && Minified(c, 1) == c[1..6] + "";
  }

  /** An escaped backslash at the end of a string: minify_string reads on through the closing quote, and takes the blank out of
      the next string. */
  lemma PairsGoWrong(strtod: Strtod)
    requires Reads(strtod) && ReadsIntegers(strtod)
    ensures var before, after := Array([String(['\\']), String([' '])]), Array([String(['\\']), String([])]);
      var text := Render(before, false, 0);
      && NUL !in text && ParseText(text, strtod, true) == Some(before)
      && Terminated(text + [NUL]) && NUL !in Minified(text + [NUL], 0)
      && ParseText(Minified(text + [NUL], 0), strtod, true) == Some(after)
  {
    var before, after := Array([String(['\\']), String([' '])]), Array([String(['\\']), String([])]);
    var text, shorter := Render(before, false, 0), Render(after, false, 0);
    ParseUndoesPrint(before, strtod, false, true);
    ParseUndoesPrint(after, strtod, false, true);
    PairTexts();
    assert forall i :: 0 <= i < |text| ==> text[i] in text;
    MinifiedShorter(text + [NUL], 0);
    PairMinified(text + [NUL]);
  }

  lemma PairMinified(c: string)
    requires c == ['[', '\"', '\\', '\\', '\"', ',', '\"', ' ', '\"', ']', NUL] && Terminated(c)
    ensures Minified(c, 0) == ['[', '\"', '\\', '\\', '\"', ',', '\"', '\"', ']']
  {
    assert Minified(c, 10) == "";
    assert StringEnd(c, 9) == StringEnd(c, 10) == 10;
    assert Minified(c, 8) == c[8..10] + "" == ['\"', ']'];
    assert Minified(c, 7) == Minified(c, 8);
    assert StringEnd(c, 2) == StringEnd(c, 3) == StringEnd(c, 5) == StringEnd(c, 6) == 7;
    assert Minified(c, 1) == c[1..7] + Minified(c, 7);
    assert Minified(c, 0) == ['['] + Minified(c, 1);
  }

  lemma PairTexts()
    ensures Render(Array([String(['\\']), String([' '])]), false, 0) == ['[', '\"', '\\', '\\', '\"', ',', '\"', ' ', '\"', ']']
    ensures Render(Array([String(['\\']), String([])]), false, 0) == ['[', '\"', '\\', '\\', '\"', ',', '\"', '\"', ']']
  {
    var b, x, y := String(['\\']), String([' ']), String([]);
    assert Escape(['\\']) == ['\\', '\\'] + [] && Escape([' ']) == [' '] + [];
    assert Render(b, false, 1) == ['\"', '\\', '\\', '\"'];
    assert Render(x, false, 1) == ['\"', ' ', '\"'] && Render(y, false, 1) == ['\"', '\"'];
    assert [b, x][1..] == [x] && [b, y][1..] == [y] && [x][1..] == [] && [y][1..] == [];
    assert RenderItems([x], false, 1) == ['\"', ' ', '\"'] + "" + [];
    assert RenderItems([y], false, 1) == ['\"', '\"'] + "" + [];
    assert RenderItems([b, x], false, 1) == ['\"', '\\', '\\', '\"'] + "," + RenderItems([x], false, 1);
    assert RenderItems([b, y], false, 1) == ['\"', '\\', '\\', '\"'] + "," + RenderItems([y], false, 1);
  }
}
