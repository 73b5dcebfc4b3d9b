/** The growing print buffer of cJSON.c, and the print_value family that fills it. */
module JsonPrint {
  import opened CStrings
  import opened JsonTrees
  import opened JsonText

  const INT_MAX: nat := 0x7fff_ffff

  class PrintBuffer {
    var buffer: array<char>
    var offset: nat
    var depth: nat
    const noalloc: bool
    const format: bool

    ghost predicate Valid()
      reads this
    {
      (offset < buffer.Length || (noalloc && offset == 0)) && buffer.Length <= INT_MAX
    }

    /** How far the buffer can reach: a buffer handed in by the caller never grows, the others grow up to INT_MAX. */
    ghost function Limit(): nat
      reads this
    {
      if noalloc then buffer.Length else INT_MAX
    }

    constructor (buffer: array<char>, noalloc: bool, format: bool)
      requires buffer.Length <= INT_MAX && (!noalloc ==> buffer.Length > 0)
      ensures Valid() && this.buffer == buffer && offset == 0 && depth == 0
      ensures this.noalloc == noalloc && this.format == format
    {
      this.buffer, this.offset, this.depth := buffer, 0, 0;
      this.noalloc, this.format := noalloc, format;
    }

    /** ensure: room for `needed` more bytes and one byte to spare. Only what stands up to the offset survives. */
    method Ensure(needed: nat) returns (ok: bool)
      requires Valid()
      modifies this`buffer
      ensures Valid() && Limit() == old(Limit()) && (buffer == old(buffer) || (!noalloc && fresh(buffer)))
      ensures ok <==> offset + needed + 1 <= Limit()
      ensures ok ==> offset + needed + 1 <= buffer.Length
      ensures buffer[..offset] == old(buffer[..offset])
    {
      if needed > INT_MAX {
        return false;
      }
      var total := needed + offset + 1;
      if total <= buffer.Length {
        return true;
      }
      if noalloc {
        return false;
      }
      var newsize;
      if total > INT_MAX / 2 {
        if total > INT_MAX {
          return false;
        }
        newsize := INT_MAX;
      } else {
        newsize := total * 2;
      }
      var newbuffer := new char[newsize];
      var i := 0;
      while i < offset + 1
        invariant i <= offset + 1 && buffer == old(buffer)
        invariant newbuffer[..i] == buffer[..i]
      {
        newbuffer[i] := buffer[i];
        i := i + 1;
      }
      buffer := newbuffer;
      return true;
    }

    /** update_offset: move to the NUL. */
    method UpdateOffset(ghost end: nat)
      requires Valid() && offset <= end < buffer.Length && buffer[end] == NUL
      requires forall i :: offset <= i < end ==> buffer[i] != NUL
      modifies this`offset
      ensures offset == end && Valid()
    {
      while buffer[offset] != NUL
        invariant old(offset) <= offset <= end
        decreases end - offset
      {
        offset := offset + 1;
      }
    }

    /** Copy characters into the buffer, which has to have room for them. */
    method Write(at: nat, text: string)
      requires at + |text| <= buffer.Length
      modifies buffer
      ensures buffer[..at + |text|] == old(buffer[..at]) + text
      ensures buffer[at + |text|..] == old(buffer[at + |text|..])
    {
      var i := 0;
      while i < |text|
        invariant i <= |text|
        invariant buffer[..at + i] == old(buffer[..at]) + text[..i]
        invariant buffer[at + |text|..] == old(buffer[at + |text|..])
      {
        buffer[at + i] := text[i];
        assert text[..i + 1] == text[..i] + [text[i]];
        i := i + 1;
      }
      assert text[..i] == text;
    }

    /** Ask for `needed` bytes and write `text` into them, with or without a NUL; the offset stays. */
    method Emit(needed: nat, text: string, terminate: bool) returns (ok: bool)
      requires Valid() && |text| + (if terminate then 1 else 0) <= needed
      modifies this`buffer, buffer
      ensures Valid() && Limit() == old(Limit()) && (buffer == old(buffer) || (!noalloc && fresh(buffer)))
      ensures ok <==> offset + needed + 1 <= Limit()
      ensures ok ==> offset + needed + 1 <= buffer.Length && buffer[..offset + |text|] == old(buffer[..offset]) + text
      ensures ok && terminate ==> buffer[offset + |text|] == NUL
    {
      ghost var before := buffer[..offset];
      ok := Ensure(needed);
      if ok {
        Write(offset, text);
        if terminate {
          buffer[offset + |text|] := NUL;
        }
        assert buffer[..offset + |text|] == before + text;
      }
    }

    /** The finished text stands behind `before`, ends with its NUL, and the offset is somewhere on it. */
    ghost predicate Printed(before: string, text: string)
      reads this, buffer
    {
      var end := |before| + |text|;
      && |before| <= offset <= end < buffer.Length
      && buffer[..end] == before + text
      && buffer[end] == NUL
    }

    /** The text so far, up to the offset. */
    ghost predicate SoFar(before: string, text: string)
      reads this, buffer
    {
      && offset == |before| + |text| < buffer.Length
      && buffer[..offset] == before + text
    }

    /** print_value and then update_offset. */
    method Finish(ghost before: string, ghost front: string, ghost text: string)
      requires Valid() && Printed(before + front, text) && NUL !in text
      modifies this`offset
      ensures Valid() && SoFar(before, front + text)
    {
      ghost var end := |before| + |front| + |text|;
      assert forall i :: offset <= i < end ==> buffer[..end][i] == text[i - |before| - |front|];
      Joined(before, front, text);
      UpdateOffset(end);
    }

    // ---------- strings ----------

    /** print_string_ptr, first loop: how many characters escaping adds. */
    method CountEscapes(input: string) returns (extra: nat)
      ensures |input| + extra == |Escape(input)|
      ensures extra == 0 ==> Escape(input) == input
    {
      extra := 0;
      var i := 0;
      while i < |input|
        invariant i <= |input|
        invariant i + extra == |Escape(input[..i])|
        invariant extra == 0 ==> Escape(input[..i]) == input[..i]
      {
        EscapeSnoc(input, i);
        assert input[..i + 1] == input[..i] + [input[i]];
        var c := input[i];
        if c == '\"' || c == '\\' || c == BS || c == FF || c == '\n' || c == '\r' || c == '\t' {
          extra := extra + 1;
        } else if (c as int) < 32 {
          extra := extra + 5;
        }
        i := i + 1;
      }
      assert input[..i] == input;
    }

    /** print_string_ptr, second loop: from `at` on, write the escaped characters. */
    method WriteEscaped(at: nat, input: string)
      requires at + |Escape(input)| <= buffer.Length
      modifies buffer
      ensures buffer[..at + |Escape(input)|] == old(buffer[..at]) + Escape(input)
    {
      var i, position := 0, at;
      assert input[0..] == input;
      while i < |input|
        invariant i <= |input|
        invariant position == at + |Escape(input[..i])|
        invariant position + |Escape(input[i..])| == at + |Escape(input)|
        invariant buffer[..position] == old(buffer[..at]) + Escape(input[..i])
      {
        EscapeSnoc(input, i);
        assert input[i..][1..] == input[i + 1..];
        var code := EscapeChar(input[i]);
        Write(position, code);
        position, i := position + |code|, i + 1;
      }
      assert input[..i] == input;
    }

    /** print_string_ptr. */
    method PrintStringPtr(input: string) returns (ok: bool)
      requires Valid()
      modifies this`buffer, buffer
      ensures Valid() && Limit() == old(Limit()) && (buffer == old(buffer) || (!noalloc && fresh(buffer)))
      ensures ok <==> offset + |Quote(input)| + 2 <= Limit()
      ensures ok ==> Printed(old(buffer[..offset]), Quote(input))
    {
      ghost var before := buffer[..offset];
      var extra := CountEscapes(input);
      var length := |input| + extra;
      ok := Ensure(length + 3);
      if !ok {
        return;
      }
      WriteQuoted(input, extra);
      buffer[offset + length + 2] := NUL;
      assert buffer[..offset + length + 2] == before + Quote(input);
    }

    method WriteQuoted(input: string, extra: nat)
      requires |input| + extra == |Escape(input)| && (extra == 0 ==> Escape(input) == input)
      requires offset + |Quote(input)| < buffer.Length
      modifies buffer
      ensures buffer[..offset + |Quote(input)|] == old(buffer[..offset]) + Quote(input)
    {
      ghost var before, code := buffer[..offset], Escape(input);
      var end := offset + 1 + |input| + extra;
      WriteChar(offset, '\"');
      if extra == 0 {
        Write(offset + 1, input);
      } else {
        WriteEscaped(offset + 1, input);
      }
      assert buffer[..end] == before + ['\"'] + code;
      WriteChar(end, '\"');
      Regrouped(before, ['\"'], code, ['\"']);
    }

    method WriteChar(at: nat, c: char)
      requires at < buffer.Length
      modifies buffer
      ensures buffer[..at + 1] == old(buffer[..at]) + [c]
    {
      buffer[at] := c;
    }

    /** print_number. */
    method PrintNumber(n: int) returns (ok: bool)
      requires Valid()
      modifies this`buffer, this`offset, buffer
      ensures Valid() && Limit() == old(Limit()) && (buffer == old(buffer) || (!noalloc && fresh(buffer)))
      ensures ok <==> old(offset) + |Numeral(n)| + 2 <= Limit()
      ensures ok ==> Printed(old(buffer[..offset]), Numeral(n))
    {
      ghost var before := buffer[..offset];
      var text := Numeral(n);
      ok := Emit(|text| + 1, text, true);
      if ok {
        offset := offset + |text|;
        assert buffer[..offset] == before + text;
      }
    }

    // ---------- values ----------

    /** Text that is written without a value, and counted at once. */
    method Advance(needed: nat, text: string, terminate: bool, ghost before: string, ghost front: string) returns (ok: bool)
      requires Valid() && |text| + (if terminate then 1 else 0) <= needed
      requires offset == |before| + |front| && buffer[..offset] == before + front
      modifies this`buffer, this`offset, buffer
      ensures Valid() && Limit() == old(Limit()) && (buffer == old(buffer) || (!noalloc && fresh(buffer)))
      ensures ok <==> old(offset) + needed + 1 <= Limit()
      ensures ok ==> SoFar(before, front + text)
    {
      ok := Emit(needed, text, terminate);
      if ok {
        offset := offset + |text|;
        Joined(before, front, text);
      }
    }

    /** The closing bracket, which the offset stays in front of. */
    method Close(needed: nat, text: string, ghost before: string, ghost front: string) returns (ok: bool)
      requires Valid() && SoFar(before, front) && |text| + 1 <= needed && depth > 0
      modifies this`buffer, this`depth, buffer
      ensures Valid() && Limit() == old(Limit()) && (buffer == old(buffer) || (!noalloc && fresh(buffer)))
      ensures ok <==> offset + needed + 1 <= Limit()
      ensures ok ==> Printed(before, front + text) && depth == old(depth) - 1
    {
      ok := Emit(needed, text, true);
      if ok {
        depth := depth - 1;
        Joined(before, front, text);
      }
    }

    /** print_value: true exactly when the tree holds no Invalid item and the text, its NUL and one spare byte fit; then
        the text stands in the buffer. */
    method PrintValue(item: Json) returns (ok: bool)
      requires Valid() && Printable(item)
      modifies this`buffer, this`offset, this`depth, buffer
      ensures Valid() && Limit() == old(Limit()) && (buffer == old(buffer) || (!noalloc && fresh(buffer)))
      ensures ok <==> !HasInvalid(item) && old(offset + |Render(item, format, depth)|) + 2 <= Limit()
      ensures ok ==> Printed(old(buffer[..offset]), old(Render(item, format, depth))) && depth == old(depth)
      decreases item, 0
    {
      match item {
        case Null => ok := Emit(5, "null", true);
        case False => ok := Emit(6, "false", true);
        case True => ok := Emit(5, "true", true);
        case Number(n) => ok := PrintNumber(n);
        case String(s) => ok := PrintStringPtr(s);
        case Array(items) => ok := PrintArray(items);
        case Object(members) => ok := PrintObject(members);
        case Invalid => ok := false;
      }
    }

    /** One turn of the loop of print_array. */
    method PrintItem(item: Json, more: bool, ghost before: string, ghost front: string) returns (ok: bool)
      requires Valid() && Printable(item) && SoFar(before, front)
      modifies this`buffer, this`offset, this`depth, buffer
      ensures Valid() && Limit() == old(Limit()) && (buffer == old(buffer) || (!noalloc && fresh(buffer)))
      ensures ok <==> !HasInvalid(item) && old(offset + |Render(item, format, depth)|) + |Comma(format, more)| + 2 <= Limit()
      ensures ok ==> SoFar(before, front + old(Render(item, format, depth)) + Comma(format, more)) && depth == old(depth)
      decreases item, 1
    {
      ghost var text := Render(item, format, depth);
      RenderClean(item, format, depth);
      ok := PrintValue(item);
      if ok {
        Finish(before, front, text);
        if more {
          var comma := if format then ", " else ",";
          ok := Advance(|comma| + 1, comma, true, before, front + text);
        } else {
          assert front + text + "" == front + text;
        }
      }
    }

    /** print_array. */
    method PrintArray(items: seq<Json>) returns (ok: bool)
      requires Valid() && Printable(Array(items))
      modifies this`buffer, this`offset, this`depth, buffer
      ensures Valid() && Limit() == old(Limit()) && (buffer == old(buffer) || (!noalloc && fresh(buffer)))
      ensures ok <==> !HasInvalid(Array(items)) && old(offset + |Render(Array(items), format, depth)|) + 2 <= Limit()
      ensures ok ==> Printed(old(buffer[..offset]), old(Render(Array(items), format, depth))) && depth == old(depth)
      decreases items, 2
    {
      ghost var before := buffer[..offset];
      assert Render(Array(items), format, depth) == "[" + RenderItems(items, format, depth + 1) + "]";
      assert before + "" == before && "" + "[" == "[";
      ok := Advance(1, "[", false, before, "");
      if ok {
        depth := depth + 1;
        ghost var all := RenderItems(items, format, depth);
        ok := PrintItems(items, before, "[");
        if ok {
          ok := Close(2, "]", before, "[" + all);
        }
      }
    }

    /** The loop of print_array. */
    method PrintItems(items: seq<Json>, ghost before: string, ghost front: string) returns (ok: bool)
      requires Valid() && SoFar(before, front) && forall x :: x in items ==> Printable(x)
      modifies this`buffer, this`offset, this`depth, buffer
      ensures Valid() && Limit() == old(Limit()) && (buffer == old(buffer) || (!noalloc && fresh(buffer)))
      ensures ok ==> SoFar(before, front + old(RenderItems(items, format, depth))) && depth == old(depth)
      ensures ok ==> forall x :: x in items ==> !HasInvalid(x)
      ensures !ok ==> (exists x :: x in items && HasInvalid(x)) || old(offset + |RenderItems(items, format, depth)|) + 2 > Limit()
      decreases items, 1
    {
      ghost var all, d, text := RenderItems(items, format, depth), depth, front;
      var current := items;
      while current != []
        invariant Valid() && Limit() == old(Limit()) && (buffer == old(buffer) || (!noalloc && fresh(buffer)))
        invariant depth == d && SoFar(before, text) && text + RenderItems(current, format, d) == front + all
        invariant |current| <= |items| && current == items[|items| - |current|..]
        invariant forall k :: 0 <= k < |items| - |current| ==> !HasInvalid(items[k])
        decreases |current|
      {
        ghost var value, comma := Render(current[0], format, d), Comma(format, |current| > 1);
        assert current[0] == items[|items| - |current|] && current[0] in items;
        ok := PrintItem(current[0], |current| > 1, before, text);
        if !ok {
          return;
        }
        Regrouped(text, value, comma, RenderItems(current[1..], format, d));
        text, current := text + value + comma, current[1..];
      }
      assert text + "" == text;
      ok := true;
    }

    /** One turn of the loop of print_object. */
    method PrintMember(m: Member<Json>, more: bool, ghost before: string, ghost front: string) returns (ok: bool)
      requires Valid() && SoFar(before, front) && Printable(m.value) && NUL !in m.key
      modifies this`buffer, this`offset, this`depth, buffer
      ensures Valid() && Limit() == old(Limit()) && (buffer == old(buffer) || (!noalloc && fresh(buffer)))
      ensures ok <==> !HasInvalid(m.value) && old(offset + |RenderMember(m, more, format, depth)|) + 2 <= Limit()
      ensures ok ==> SoFar(before, front + old(RenderMember(m, more, format, depth))) && depth == old(depth)
      decreases m, 1
    {
      ghost var key, text := KeyText(m.key, format, depth), Render(m.value, format, depth);
      ok := PrintKey(m.key, before, front);
      if !ok {
        return;
      }
      RenderClean(m.value, format, depth);
      ok := PrintValue(m.value);
      if !ok {
        return;
      }
      Finish(before, front + key, text);
      var tail := (if more then "," else "") + (if format then "\n" else "");
      ok := Advance(|tail| + 1, tail, true, before, front + key + text);
      Regrouped(front, key, text, tail);
    }

    /** Indentation, the name and the colon. */
    method PrintKey(name: string, ghost before: string, ghost front: string) returns (ok: bool)
      requires Valid() && SoFar(before, front) && NUL !in name
      modifies this`buffer, this`offset, buffer
      ensures Valid() && Limit() == old(Limit()) && (buffer == old(buffer) || (!noalloc && fresh(buffer)))
      ensures ok ==> SoFar(before, front + KeyText(name, format, depth))
      ensures !ok ==> old(offset) + |KeyText(name, format, depth)| + 2 > Limit()
    {
      ghost var tabs := If(format, Tabs(depth));
      if format {
        var tabulators := seq(depth, _ => '\t');
        assert tabulators == Tabs(depth);
        ok := Advance(depth, tabulators, false, before, front);
        if !ok {
          return;
        }
      } else {
        assert front + "" == front;
      }
      ok := PrintStringPtr(name);
      if !ok {
        return;
      }
      EscapeClean(name);
      Finish(before, front + tabs, Quote(name));
      var colon := if format then ":\t" else ":";
      ok := Advance(|colon|, colon, false, before, front + tabs + Quote(name));
      Regrouped(front, tabs, Quote(name), colon);
    }

    /** The loop of print_object. */
    method PrintMembers(members: seq<Member<Json>>, ghost before: string, ghost front: string) returns (ok: bool)
      requires Valid() && SoFar(before, front) && forall m :: m in members ==> NUL !in m.key && Printable(m.value)
      modifies this`buffer, this`offset, this`depth, buffer
      ensures Valid() && Limit() == old(Limit()) && (buffer == old(buffer) || (!noalloc && fresh(buffer)))
      ensures ok ==> SoFar(before, front + old(RenderMembers(members, format, depth))) && depth == old(depth)
      ensures ok ==> forall m :: m in members ==> !HasInvalid(m.value)
      ensures !ok ==> (exists m :: m in members && HasInvalid(m.value))
                      || old(offset + |RenderMembers(members, format, depth)|) + 2 > Limit()
      decreases members, 1
    {
      ghost var all, d, text := RenderMembers(members, format, depth), depth, front;
      var current := members;
      while current != []
        invariant Valid() && Limit() == old(Limit()) && (buffer == old(buffer) || (!noalloc && fresh(buffer)))
        invariant depth == d && SoFar(before, text) && text + RenderMembers(current, format, d) == front + all
        invariant |current| <= |members| && current == members[|members| - |current|..]
        invariant forall k :: 0 <= k < |members| - |current| ==> !HasInvalid(members[k].value)
        decreases |current|
      {
        ghost var next := RenderMember(current[0], |current| > 1, format, d);
        assert current[0] == members[|members| - |current|] && current[0] in members;
        ok := PrintMember(current[0], |current| > 1, before, text);
        if !ok {
          return;
        }
        Joined(text, next, RenderMembers(current[1..], format, d));
        text, current := text + next, current[1..];
      }
      assert text + "" == text;
      ok := true;
    }

    /** print_object. */
    method PrintObject(members: seq<Member<Json>>) returns (ok: bool)
      requires Valid() && Printable(Object(members))
      modifies this`buffer, this`offset, this`depth, buffer
      ensures Valid() && Limit() == old(Limit()) && (buffer == old(buffer) || (!noalloc && fresh(buffer)))
      ensures ok <==> !HasInvalid(Object(members)) && old(offset + |Render(Object(members), format, depth)|) + 2 <= Limit()
      ensures ok ==> Printed(old(buffer[..offset]), old(Render(Object(members), format, depth))) && depth == old(depth)
      decreases members, 2
    {
      ghost var before, d := buffer[..offset], depth;
      var open := if format then "{\n" else "{";
      assert before + "" == before && "" + open == open;
      ok := Advance(|open| + 1, open, false, before, "");
      if ok {
        depth := depth + 1;
        ghost var all := RenderMembers(members, format, depth);
        ok := PrintMembers(members, before, open);
        if ok {
          var close := (if format then seq(depth - 1, _ => '\t') else "") + "}";
          assert close == CloseText(format, d);
          ok := Close(if format then depth + 1 else 2, close, before, open + all);
        }
      }
    }
  }

  lemma Joined(a: string, b: string, c: string)
    ensures a + b + c == a + (b + c)
  {
  }

  /** print, behind cJSON_Print and cJSON_PrintUnformatted, and cJSON_PrintBuffered: any first size will do. */
  method Print(item: Json, size: nat, format: bool) returns (printed: Option<string>)
    requires Printable(item) && 0 < size <= INT_MAX
    ensures printed == if !HasInvalid(item) && |Render(item, format, 0)| + 2 <= INT_MAX
                       then Some(Render(item, format, 0)) else None
  {
    var buffer := new char[size];
    var p := new PrintBuffer(buffer, false, format);
    ghost var text := Render(item, format, 0);
    assert p.buffer[..p.offset] == "";
    var ok := p.PrintValue(item);
    if !ok {
      return None;
    }
    RenderClean(item, format, 0);
    p.Finish("", "", text);
    assert "" + text == text;
    return Some(p.buffer[..p.offset]);
  }

  /** cJSON_PrintPreallocated: into the caller's buffer, which needs one byte more than text and NUL. */
  method PrintPreallocated(item: Json, buffer: array<char>, format: bool) returns (ok: bool)
    requires Printable(item) && buffer.Length <= INT_MAX
    modifies buffer
    ensures ok <==> !HasInvalid(item) && |Render(item, format, 0)| + 2 <= buffer.Length
    ensures ok ==> var end := |Render(item, format, 0)|;
      buffer[..end] == Render(item, format, 0) && buffer[end] == NUL
  {
    var p := new PrintBuffer(buffer, true, format);
    assert p.buffer[..p.offset] == "";
    ok := p.PrintValue(item);
    assert "" + Render(item, format, 0) == Render(item, format, 0);
  }

  lemma Regrouped(a: string, b: string, c: string, d: string)
    ensures a + b + c + d == a + (b + c + d)
  {
  }
}
