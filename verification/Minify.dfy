/** cJSON_Minify: white space and comments are dropped from a NUL-terminated text, in place. */
module Minify {
  import opened CStrings
  import opened JsonText
  import opened JsonParse

  /** The characters Minify counts as white space; control characters are not among them. */
  predicate Dropped(c: char) {
    c == ' ' || c == '\t' || c == '\r' || c == '\n'
  }

  /** Behind the line break that ends a // comment, or at the NUL. */
  function LineEnd(c: string, p: nat): (r: nat)
    requires Terminated(c) && p < |c|
    ensures p <= r < |c|
    decreases |c| - p
  {
    if c[p] == NUL then p else if c[p] == '\n' then p + 1 else LineEnd(c, p + 1)
  }

  /** Behind the end of a block comment, or at the NUL. */
  function BlockEnd(c: string, p: nat): (r: nat)
    requires Terminated(c) && p < |c|
    ensures p <= r < |c|
    decreases |c| - p
  {
    if c[p] == NUL then p
    else if c[p] == '*' && c[p + 1] == '/' then p + 2
    else BlockEnd(c, p + 1)
  }

  /** Where minify_string thinks a string ends: behind the first quote that has no backslash in front of it. */
  function StringEnd(c: string, p: nat): (r: nat)
    requires Terminated(c) && p < |c|
    ensures p <= r < |c|
    decreases |c| - p
  {
    if c[p] == NUL then p
    else if c[p] == '\"' then p + 1
    else if c[p] == '\\' && c[p + 1] == '\"' then StringEnd(c, p + 2)
    else StringEnd(c, p + 1)
  }

  /** What is left of the text from `p` on. */
  function Minified(c: string, p: nat): string
    requires Terminated(c) && p < |c|
    decreases |c| - p
  {
    if c[p] == NUL then ""
    else if Dropped(c[p]) then Minified(c, p + 1)
    else if c[p] == '/' then
      if c[p + 1] == '/' then Minified(c, LineEnd(c, p + 2))
      else if c[p + 1] == '*' then Minified(c, BlockEnd(c, p + 2))
      else Minified(c, p + 1)
    else if c[p] == '\"' then c[p..StringEnd(c, p + 1)] + Minified(c, StringEnd(c, p + 1))
    else [c[p]] + Minified(c, p + 1)
  }

  /** Nothing is left but what stood there, so the result is never longer. */
  lemma {:induction false} MinifiedShorter(c: string, p: nat)
    requires Terminated(c) && p < |c|
    ensures p + |Minified(c, p)| < |c|
    ensures NUL !in Minified(c, p)
    decreases |c| - p
  {
    if c[p] == NUL {
    } else if Dropped(c[p]) {
      MinifiedShorter(c, p + 1);
    } else if c[p] == '/' {
      MinifiedShorter(c, if c[p + 1] == '/' then LineEnd(c, p + 2) else if c[p + 1] == '*' then BlockEnd(c, p + 2) else p + 1);
    } else if c[p] == '\"' {
      MinifiedShorter(c, StringEnd(c, p + 1));
    } else {
      MinifiedShorter(c, p + 1);
    }
  }

  // ---------- in place ----------

  /** What an unfinished run looks like: the output so far in front of `into`, the rest of the text still in place from
      `from` on, and never is the writing position ahead of the reading position. */
  ghost predicate Running(json: array<char>, text: string, into: nat, from: nat, done: string)
    reads json
  {
    && Terminated(text) && |text| <= json.Length
    && into <= from < |text| && into == |done|
    && json[..into] == done
    && json[from..|text|] == text[from..]
  }

  /** Copy one character to the writing position. */
  method CopyChar(json: array<char>, into: nat, from: nat, ghost text: string, ghost done: string)
    requires Running(json, text, into, from, done) && from + 1 < |text|
    modifies json
    ensures Running(json, text, into + 1, from + 1, done + [text[from]])
  {
    assert json[from] == json[from..|text|][0] == text[from];
    json[into] := json[from];
    assert json[from + 1..|text|] == text[from..][1..] == text[from + 1..];
  }

  lemma CharAt(json: array<char>, text: string, into: nat, from: nat, done: string, k: nat)
    requires Running(json, text, into, from, done) && from + k < |text|
    ensures json[from + k] == text[from + k]
  {
    assert json[from..|text|][k] == text[from..][k];
  }

  /** skip_oneline_comment. */
  method SkipOnelineComment(json: array<char>, from: nat, ghost into: nat, ghost text: string, ghost done: string) returns (position: nat)
    requires Running(json, text, into, from, done) && from + 1 < |text| && text[from + 1] != NUL
    ensures position == LineEnd(text, from + 2)
  {
    position := from + 2;
    CharAt(json, text, into, from, done, 2);
    while json[position] != NUL
      invariant from + 2 <= position < |text| && json[position] == text[position]
      invariant LineEnd(text, from + 2) == LineEnd(text, position)
      decreases |text| - position
    {
      CharAt(json, text, into, from, done, position + 1 - from);
      if json[position] == '\n' {
        return position + 1;
      }
      position := position + 1;
    }
  }

  /** skip_multiline_comment. */
  method SkipMultilineComment(json: array<char>, from: nat, ghost into: nat, ghost text: string, ghost done: string) returns (position: nat)
    requires Running(json, text, into, from, done) && from + 1 < |text| && text[from + 1] != NUL
    ensures position == BlockEnd(text, from + 2)
  {
    position := from + 2;
    CharAt(json, text, into, from, done, 2);
    while json[position] != NUL
      invariant from + 2 <= position < |text| && json[position] == text[position]
      invariant BlockEnd(text, from + 2) == BlockEnd(text, position)
      decreases |text| - position
    {
      CharAt(json, text, into, from, done, position + 1 - from);
      if json[position] == '*' && json[position + 1] == '/' {
        return position + 2;
      }
      position := position + 1;
    }
  }

  /** minify_string: the opening quote, then everything up to the end of the string. */
  method MinifyString(json: array<char>, into: nat, from: nat, ghost text: string, ghost done: string)
    returns (into': nat, from': nat)
    requires Running(json, text, into, from, done) && from + 1 < |text|
    modifies json
    ensures from' == StringEnd(text, from + 1)
    ensures Running(json, text, into', from', done + text[from..from'])
  {
    CopyChar(json, into, from, text, done);
    into', from' := into + 1, from + 1;
    assert text[from..from'] == [text[from]];
    ghost var end := StringEnd(text, from + 1);
    CharAt(json, text, into', from', done + text[from..from'], 0);
    while json[from'] != NUL
      invariant from < from' && from' < |text|
      invariant Running(json, text, into', from', done + text[from..from'])
      invariant json[from'] == text[from']
      invariant end == StringEnd(text, from')
      decreases |text| - from'
    {
      ghost var before := done + text[from..from'];
      CharAt(json, text, into', from', before, 1);
      var c, next := json[from'], json[from' + 1];
      CopyChar(json, into', from', text, before);
      Extended(done, text, from, from');
      if c == '\"' {
        into', from' := into' + 1, from' + 1;
        return;
      } else if c == '\\' && next == '\"' {
        CopyChar(json, into' + 1, from' + 1, text, done + text[from..from' + 1]);
        Extended(done, text, from, from' + 1);
        into', from' := into' + 1, from' + 1;
      }
      into', from' := into' + 1, from' + 1;
      CharAt(json, text, into', from', done + text[from..from'], 0);
    }
  }

  /** cJSON_Minify, on the text and its NUL at the front of the buffer. */
  method MinifyInPlace(json: array<char>, ghost text: string) returns (length: nat)
    requires Terminated(text) && |text| <= json.Length && json[..|text|] == text
    modifies json
    ensures length < |text| && json[..length] == Minified(text, 0) && json[length] == NUL
  {
    var into: nat, from: nat := 0, 0;
    ghost var done := "";
    assert json[0..|text|] == text[0..];
    CharAt(json, text, 0, 0, "", 0);
    while json[from] != NUL
      invariant Running(json, text, into, from, done)
      invariant json[from] == text[from]
      invariant Minified(text, 0) == done + Minified(text, from)
      decreases |text| - from
    {
      CharAt(json, text, into, from, done, 1);
      var c, next := json[from], json[from + 1];
      if Dropped(c) {
        from := from + 1;
      } else if c == '/' {
        if next == '/' {
          from := SkipOnelineComment(json, from, into, text, done);
        } else if next == '*' {
          from := SkipMultilineComment(json, from, into, text, done);
        } else {
          from := from + 1;
        }
        assert json[from..|text|] == text[from..];
      } else if c == '\"' {
        ghost var front := done;
        ghost var was := from;
        done := done + text[from..StringEnd(text, from + 1)];
        into, from := MinifyString(json, into, from, text, front);
        Shuffled(front, text[was..from], Minified(text, from));
      } else {
        Shuffled(done, [c], Minified(text, from + 1));
        CopyChar(json, into, from, text, done);
        done := done + [c];
        into, from := into + 1, from + 1;
      }
      CharAt(json, text, into, from, done, 0);
    }
    json[into] := NUL;
    assert done + "" == done;
    return into;
  }

  lemma Shuffled(a: string, b: string, c: string)
    ensures a + (b + c) == a + b + c
  {
  }

  lemma Extended(done: string, text: string, from: nat, k: nat)
    requires from <= k < |text|
    ensures done + text[from..k] + [text[k]] == done + text[from..k + 1]
  {
    assert text[from..k] + [text[k]] == text[from..k + 1];
  }

  // ---------- minifying twice ----------

  /** A copied string ends where it ended. */
  lemma {:induction false} StringEndCopied(c: string, i: nat, c': string, j: nat)
    requires Terminated(c) && Terminated(c') && i < |c|
    requires var e := StringEnd(c, i);
      && j + (e - i) < |c'| && (c[e] == NUL ==> c'[j + (e - i)] == NUL)
      && forall k :: i <= k < e ==> c'[j + (k - i)] == c[k]
    ensures StringEnd(c', j) == j + (StringEnd(c, i) - i)
    decreases |c| - i
  {
    var e := StringEnd(c, i);
    if c[i] != NUL && c[i] != '\"' {
      var step := if c[i] == '\\' && c[i + 1] == '\"' then 2 else 1;
      assert e == StringEnd(c, i + step);
      assert c'[j + (i - i)] == c[i] && c'[j + (i + 1 - i)] == c[i + 1];
      forall k | i + step <= k < e ensures c'[j + step + (k - (i + step))] == c[k] {
        assert c'[j + (k - i)] == c[k];
      }
      StringEndCopied(c, i + step, c', j + step);
    } else if c[i] == '\"' {
      assert c'[j + (i - i)] == c[i];
    }
  }

  /** `c'` ends with what is left of `c` from `p` on. */
  predicate Leaves(c: string, p: nat, c': string, q: nat)
    requires Terminated(c) && p < |c|
  {
    Terminated(c') && q + |Minified(c, p)| + 1 == |c'| && At(c', q, Minified(c, p))
  }

  lemma LeavesString(c: string, p: nat, c': string, q: nat)
    requires Terminated(c) && p < |c| && c[p] == '\"' && Leaves(c, p, c', q)
    ensures var e := StringEnd(c, p + 1);
      && Leaves(c, e, c', q + (e - p)) && q + (e - p) < |c'|
      && (forall k :: p <= k < e ==> c'[q + (k - p)] == c[k])
      && (c[e] == NUL ==> c'[q + (e - p)] == NUL)
      && c'[q..q + (e - p)] == c[p..e]
  {
    var e := StringEnd(c, p + 1);
    AtSplit(c', q, c[p..e], Minified(c, e));
    AtIndices(c', q, c[p..e]);
    forall k | p <= k < e ensures c'[q + (k - p)] == c[k] {
      assert c[p..e][k - p] == c[k];
    }
  }

  lemma LeavesChar(c: string, p: nat, c': string, q: nat)
    requires Terminated(c) && p < |c| && c[p] != NUL && !Dropped(c[p]) && c[p] != '/' && c[p] != '\"' && Leaves(c, p, c', q)
    ensures c'[q] == c[p] && q + 1 < |c'| && Leaves(c, p + 1, c', q + 1)
  {
    AtSplit(c', q, [c[p]], Minified(c, p + 1));
    AtIndices(c', q, [c[p]]);
    assert c'[q + 0] == [c[p]][0];
  }

  lemma {:induction false} MinifiedAgain(c: string, p: nat, c': string, q: nat)
    requires Terminated(c) && p < |c| && Leaves(c, p, c', q)
    ensures Minified(c', q) == Minified(c, p)
    decreases |c| - p
  {
    if c[p] == NUL {
    } else if Dropped(c[p]) {
      MinifiedAgain(c, p + 1, c', q);
    } else if c[p] == '/' {
      MinifiedAgain(c, if c[p + 1] == '/' then LineEnd(c, p + 2) else if c[p + 1] == '*' then BlockEnd(c, p + 2) else p + 1, c', q);
    } else if c[p] == '\"' {
      StringAgain(c, p, c', q);
      MinifiedAgain(c, StringEnd(c, p + 1), c', q + (StringEnd(c, p + 1) - p));
    } else {
      LeavesChar(c, p, c', q);
      MinifiedAgain(c, p + 1, c', q + 1);
    }
  }

  lemma StringAgain(c: string, p: nat, c': string, q: nat)
    requires Terminated(c) && p < |c| && c[p] == '\"' && Leaves(c, p, c', q)
    ensures var e := StringEnd(c, p + 1);
      && q + (e - p) < |c'| && Leaves(c, e, c', q + (e - p))
      && Minified(c', q) == c[p..e] + Minified(c', q + (e - p))
  {
    var e := StringEnd(c, p + 1);
    LeavesString(c, p, c', q);
    assert c'[q + (p - p)] == c[p];
    forall k | p + 1 <= k < e ensures c'[q + 1 + (k - (p + 1))] == c[k] {
      assert c'[q + (k - p)] == c[k];
    }
    StringEndCopied(c, p + 1, c', q + 1);
  }

  /** Minifying a minified text changes nothing. */
  lemma MinifyIdempotent(c: string)
    requires Terminated(c)
    ensures Terminated(Minified(c, 0) + [NUL])
    ensures Minified(Minified(c, 0) + [NUL], 0) == Minified(c, 0)
  {
    var m := Minified(c, 0);
    MinifiedShorter(c, 0);
    assert forall i :: 0 <= i < |m| ==> m[i] in m;
    AtFrom(m + [NUL], 0, m);
    MinifiedAgain(c, 0, m + [NUL], 0);
  }
}
