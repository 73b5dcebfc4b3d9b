/**
 decode_pointer_inplace. It copies nothing but the characters it unescapes, so it does not undo the encoder in general;
 this module shows exactly for which names it does.
 */
module PointerDecode {
  import opened JsonPointer

  /** The loop from read index `s` and write index `d`, over the text before the NUL. */
  function DecodeFrom(text: string, d: nat, s: nat): string
    requires d <= s <= |text|
    decreases |text| - s
  {
    if s == |text| then text[..d]
    else if text[s] != '~' then DecodeFrom(text, d + 1, s + 1)
    else if s + 1 == |text| then text
    else if text[s + 1] == '0' then DecodeFrom(text[d := '~'], d + 1, s + 2)
    else if text[s + 1] == '1' then DecodeFrom(text[d + 1 := '/'], d + 1, s + 2)
    else text
  }

  function DecodeInPlace(text: string): string {
    DecodeFrom(text, 0, 0)
  }

  /** The buffer holds the text in `buffer[..length]` and its NUL behind it; returns the new length. */
  method DecodePointerInPlace(buffer: array<char>, length: nat) returns (newLength: nat)
    requires length <= buffer.Length
    modifies buffer
    ensures newLength <= length
    ensures buffer[..newLength] == DecodeInPlace(old(buffer[..length]))
    ensures buffer[length..] == old(buffer[length..])
  {
    var decoded, source := 0, 0;
    while source < length
      invariant decoded <= source <= length
      invariant buffer[length..] == old(buffer[length..])
      invariant DecodeFrom(buffer[..length], decoded, source) == DecodeInPlace(old(buffer[..length]))
    {
      ghost var text := buffer[..length];
      if buffer[source] == '~' {
        if source + 1 < length && buffer[source + 1] == '0' {
          buffer[decoded] := '~';
          assert buffer[..length] == text[decoded := '~'];
        } else if source + 1 < length && buffer[source + 1] == '1' {
          buffer[decoded + 1] := '/';
          assert buffer[..length] == text[decoded + 1 := '/'];
        } else {
          return length;
        }
        source := source + 1;
      }
      decoded, source := decoded + 1, source + 1;
    }
    return decoded;
  }

  /** No '/', and every character other than '~' also stands at its own index of the encoded name. Names without
      '~' and '/' are restorable, and so are names whose only '~' are at the end. */
  predicate Restorable(name: string) {
    && '/' !in name
    && forall i :: 0 <= i < |name| && name[i] != '~' ==> Encode(name)[i] == name[i]
  }

  /** Decoding in place undoes the encoder exactly on the restorable names. */
  lemma DecodeUndoesEncodeIff(name: string)
    ensures DecodeInPlace(Encode(name)) == name <==> Restorable(name)
  {
    DecodeEncoded(name, 0);
    assert Buffer(name, 0) == Encode(name);
    var r := DecodeInPlace(Encode(name));
    if '/' in name {
      var i := FirstSlash(name);
      assert r[i] == Encode(name)[i] && Encode(name)[i] in Encode(name);
      assert name[i] == '/' && '/' !in Encode(name);
    }
  }

  function FirstSlash(name: string): (i: nat)
    requires '/' in name
    ensures i < |name| && name[i] == '/' && (i > 0 ==> name[i - 1] != '/')
  {
    if name[0] == '/' then 0 else 1 + FirstSlash(name[1..])
  }

  /** The buffer once the first `done` characters of the name are through: a '~' was written, a '/' was written one
      index too far, and everything else still stands as encoded. */
  function Buffer(name: string, done: nat): string
    requires done <= |name|
  {
    seq(|Encode(name)|, i requires 0 <= i < |Encode(name)| =>
      if i < done && name[i] == '~' then '~'
      else if 0 < i <= done && name[i - 1] == '/' then '/'
      else Encode(name)[i])
  }

  lemma {:induction false} DecodeEncoded(name: string, done: nat)
    requires done <= |name|
    ensures |Encode(name[..done])| <= |Encode(name)|
    ensures DecodeFrom(Buffer(name, done), done, |Encode(name[..done])|) == Buffer(name, |name|)[..|name|]
    decreases |name| - done
  {
    if done == |name| {
      assert name[..done] == name;
    } else {
      DecodeStep(name, done);
      DecodeEncoded(name, done + 1);
    }
  }

  lemma DecodeStep(name: string, done: nat)
    requires done < |name|
    ensures |Encode(name[..done])| < |Encode(name[..done + 1])| <= |Encode(name)|
    ensures DecodeFrom(Buffer(name, done), done, |Encode(name[..done])|) ==
            DecodeFrom(Buffer(name, done + 1), done + 1, |Encode(name[..done + 1])|)
  {
    UnreadAsEncoded(name, done);
    BufferNext(name, done);
  }

  /** What stands at the read index is the encoding of the next character of the name. */
  lemma UnreadAsEncoded(name: string, done: nat)
    requires done < |name|
    ensures var s, code := |Encode(name[..done])|, EncodeChar(name[done]);
      && |Encode(name[..done + 1])| == s + |code| <= |Encode(name)|
      && Buffer(name, done)[s] == code[0]
      && (|code| == 2 ==> Buffer(name, done)[s + 1] == code[1])
  {
    EncodedPrefix(name, done + 1);
    EncodedStep(name, done);
    EncodedAt(name, done);
    if done > 0 && name[done - 1] == '/' {
      EncodedStep(name, done - 1);
    }
  }

  lemma BufferNext(name: string, done: nat)
    requires done < |name|
    ensures name[done] == '~' ==> Buffer(name, done)[done := '~'] == Buffer(name, done + 1)
    ensures name[done] == '/' && done + 1 < |Encode(name)| ==>
              Buffer(name, done)[done + 1 := '/'] == Buffer(name, done + 1)
    ensures name[done] != '~' && name[done] != '/' ==> Buffer(name, done) == Buffer(name, done + 1)
  {
  }

  lemma EncodedPrefix(name: string, i: nat)
    requires i <= |name|
    ensures Encode(name) == Encode(name[..i]) + Encode(name[i..])
  {
    assert name == name[..i] + name[i..];
    EncodeAppend(name[..i], name[i..]);
  }

  lemma EncodedStep(name: string, i: nat)
    requires i < |name|
    ensures Encode(name[..i + 1]) == Encode(name[..i]) + EncodeChar(name[i])
  {
    var c := [name[i]];
    assert name[..i + 1] == name[..i] + c;
    EncodeAppend(name[..i], c);
    assert c[1..] == "" && Encode(c) == EncodeChar(c[0]) + Encode("");
  }

  /** The encoding of character `i` stands behind the encoding of the characters before it. */
  lemma EncodedAt(name: string, i: nat)
    requires i < |name|
    requires Encode(name[..i + 1]) == Encode(name[..i]) + EncodeChar(name[i])
    requires Encode(name) == Encode(name[..i + 1]) + Encode(name[i + 1..])
    ensures var s := |Encode(name[..i])|;
      && s + |EncodeChar(name[i])| <= |Encode(name)|
      && Encode(name)[s] == EncodeChar(name[i])[0]
      && (|EncodeChar(name[i])| == 2 ==> Encode(name)[s + 1] == EncodeChar(name[i])[1])
  {
  }
}
