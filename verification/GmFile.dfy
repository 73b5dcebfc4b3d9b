/** SLC_Read.cpp and marlinHost.cpp: the numbered command file of a print, and what the host makes of its lines. */
module GmFile {
  import opened CStrings
  import opened DlpHandshake

  // ---------- Line numbers ----------

  lemma {:induction false} ValueSplit(acc: int, a: string, b: string)
    ensures DigitsValue(acc, a + b) == DigitsValue(DigitsValue(acc, a), b)
    decreases |a|
  {
    if a == [] {
      assert a + b == b;
    } else {
      assert (a + b)[1..] == a[1..] + b;
      ValueSplit(10 * acc + (a[0] as int - '0' as int), a[1..], b);
    }
  }

  predicate DigitsFrom(s: string, i: nat) {
    forall k: nat :: i <= k < |s| ==> IsDigit(s[k])
  }

  /** Digits without a leading zero are the decimal form of their value. */
  lemma {:induction false} DecimalUnique(s: string)
    requires s != [] && DigitsFrom(s, 0) && s[0] != '0'
    ensures DigitsValue(0, s) > 0 && s == Decimal(DigitsValue(0, s))
    decreases |s|
  {
    var init, c := s[..|s| - 1], s[|s| - 1];
    assert s == init + [c];
    DigitsValueAppend(0, init, c);
    if init == [] {
      assert DigitsValue(0, s) == c as int - '0' as int;
    } else {
      assert IsDigit(s[|s| - 1]);
      DecimalUnique(init);
    }
  }

  function Up(c: char): char
    requires c as int < 0xD7FF
  {
    (c as int + 1) as char
  }

  /** A carry from place `i` to the place before it leaves the value alone. */
  lemma CarryKeepsValue(s: string, i: nat, s': string)
    requires 0 < i < |s| && s[i] == ':' && s[i - 1] < ':'
    requires s' == s[i - 1 := Up(s[i - 1])][i := '0']
    ensures DigitsValue(0, s') == DigitsValue(0, s)
  {
    var a, b := s[..i - 1], s[i + 1..];
    assert s == a + ([s[i - 1], s[i]] + b) && s' == a + ([s'[i - 1], s'[i]] + b);
    ValueSplit(0, a, [s[i - 1], s[i]] + b);
    ValueSplit(0, a, [s'[i - 1], s'[i]] + b);
    TwoDigits(DigitsValue(0, a), s[i - 1], s[i], b);
    TwoDigits(DigitsValue(0, a), s'[i - 1], s'[i], b);
  }

  lemma TwoDigits(acc: int, c: char, d: char, b: string)
    ensures DigitsValue(acc, [c, d] + b)
         == DigitsValue(100 * acc + 10 * (c as int - '0' as int) + (d as int - '0' as int), b)
  {
    var s, t := [c, d] + b, [d] + b;
    assert s[1..] == t && t[1..] == b;
  }

  /** A carry out of the first place. */
  lemma CarryOut(s: string, s': string)
    requires s != [] && s[0] == ':' && s' == "1" + s[0 := '0']
    ensures DigitsValue(0, s') == DigitsValue(0, s)
  {
    assert s' == ['1', '0'] + s[1..];
    TwoDigits(0, '1', '0', s[1..]);
    assert DigitsValue(0, s) == DigitsValue(10, s[1..]);
  }

  lemma LastUp(s: string, s': string)
    requires s != [] && IsDigit(s[|s| - 1]) && s' == s[|s| - 1 := Up(s[|s| - 1])]
    ensures DigitsValue(0, s') == DigitsValue(0, s) + 1
  {
    var init := s[..|s| - 1];
    assert s == init + [s[|s| - 1]] && s' == init + [s'[|s| - 1]];
    DigitsValueAppend(0, init, s[|s| - 1]);
    DigitsValueAppend(0, init, s'[|s| - 1]);
  }

  /** self_imposed_one: the last digit goes up by one and carries run to the left, in place. */
  method SelfImposedOne(num: string, ghost n: nat) returns (s: string)
    requires n > 0 && num == Decimal(n)
    ensures s == Decimal(n + 1)
  {
    s := num;
    DecimalValue(n);
    var i: int := |s| - 1;
    forall k: nat | k < |s| ensures IsDigit(s[k]) {
      assert s[k] in s;
    }
    while i >= 0
      invariant -1 <= i < |s| && s != [] && s[0] >= '1'
      invariant DigitsValue(0, s) == if i == |s| - 1 then n else n + 1
      invariant forall k: nat :: k < |s| && k != i ==> IsDigit(s[k])
      invariant i >= 0 ==> '0' <= s[i] <= if i == |s| - 1 then '9' else ':'
      decreases i
    {
      if i == |s| - 1 {
        LastUp(s, s[i := Up(s[i])]);
        s := s[i := Up(s[i])];
      }
      if i > 0 && s[i] > '9' {
        CarryKeepsValue(s, i, s[i - 1 := Up(s[i - 1])][i := '0']);
        s := s[i - 1 := Up(s[i - 1])];
      }
      if i == 0 && s[i] > '9' {
        CarryOut(s, "1" + s[0 := '0']);
        s := s[i := '0'];
        s := "1" + s;
      }
      if s[i] > '9' {
        s := s[i := '0'];
      }
      i := i - 1;
    }
    DecimalUnique(s);
  }

  // ---------- Lines ----------

  const NPOS: nat := 0xFFFF_FFFF

  /** string::find of a character. */
  function Find(s: string, c: char, from: nat): nat
    decreases |s| - from
  {
    if from >= |s| then NPOS else if s[from] == c then from else Find(s, c, from + 1)
  }

  /** Where the command ends: before the line end, or a comment in front of it. */
  function CommandEnd(s: string): nat {
    var end := if Find(s, '\r', 0) < Find(s, '\n', 0) then Find(s, '\r', 0) else Find(s, '\n', 0);
    if end < Find(s, ';', 1) then end else Find(s, ';', 0)
  }

  /** Nothing that would end the command early. */
  predicate Clean(command: string) {
    |command| < NPOS - 2 && forall i :: 0 <= i < |command| ==> command[i] !in "\r\n;"
  }

  lemma {:induction false} FindFirst(s: string, c: char, from: nat, at: nat)
    requires from <= at <= |s| && forall i :: from <= i < at ==> s[i] != c
    ensures at < |s| && s[at] == c ==> Find(s, c, from) == at
    ensures at == |s| ==> Find(s, c, from) == NPOS
    decreases at - from
  {
    if from < at {
      FindFirst(s, c, from + 1, at);
    }
  }

  lemma CommandEndsAtLineEnd(command: string, s: string)
    requires Clean(command) && command != [] && s == command + "\r\n"
    ensures CommandEnd(s) == |command| && s[..|command|] == command
  {
    FindFirst(s, '\r', 0, |command|);
    FindFirst(s, '\n', 0, |command| + 1);
    FindFirst(s, ';', 1, |s|);
  }

  /** xor_personal, on the bytes of the line. */
  function Checksum(s: string): bv8 {
    if s == [] then 0 else Checksum(s[..|s| - 1]) ^ ByteOf(s[|s| - 1])
  }

  function ByteOf(c: char): bv8 {
    (c as int % 256) as bv8
  }

  method XorPersonal(s: string) returns (r: bv8)
    ensures r == Checksum(s)
  {
    r := 0;
    var i := 0;
    while i < |s|
      invariant i <= |s| && r == Checksum(s[..i])
    {
      r := r ^ ByteOf(s[i]);
      assert s[..i + 1][..i] == s[..i];
      i := i + 1;
    }
    assert s[..i] == s;
  }

  /** A line as Marlin wants it: its number, the command, and the checksum of both. */
  function Framed(n: nat, command: string): string {
    var body := "N" + Decimal(n) + " " + command;
    body + "*" + Decimal(Checksum(body) as nat) + "\n"
  }

  // ---------- What the host makes of a line ----------

  predicate MatchAt(s: string, p: string, i: nat) {
    i + |p| <= |s| && s[i..i + |p|] == p
  }

  /** strstr. */
  ghost predicate Has(s: string, p: string) {
    exists i: nat :: MatchAt(s, p, i)
  }

  /** compareSelf. */
  ghost function KindOf(line: string): Kind {
    if Has(line, "M114") then Lift
    else if Has(line, "G28") then Home
    else if Has(line, "M106") then LedOn
    else if Has(line, "M107") then LedOff
    else Plain
  }

  predicate NoCode(s: string) {
    forall i :: 0 <= i < |s| ==> s[i] != 'M' && s[i] != 'G'
  }

  lemma NoCodeElsewhere(line: string, before: string, command: string, after: string, i: nat)
    requires line == before + command + after && NoCode(before) && NoCode(after) && |command| > 0 && NoCode(command[1..])
    requires i < |line| && i != |before|
    ensures line[i] != 'M' && line[i] != 'G'
  {
    var k := |before|;
    if i < k {
      assert line[i] == before[i];
    } else if i < k + |command| {
      assert line[i] == command[1..][i - k - 1];
    } else {
      assert line[i] == after[i - k - |command|];
    }
  }

  /** A code letter stands at the start of the command and nowhere else, so strstr finds a code there or not at all. */
  lemma HasIff(line: string, before: string, command: string, after: string, p: string)
    requires line == before + command + after && NoCode(before) && NoCode(after)
    requires 0 < |p| <= |command| && NoCode(command[1..]) && (p[0] == 'M' || p[0] == 'G')
    ensures Has(line, p) <==> command[..|p|] == p
  {
    var k := |before|;
    assert line[k..k + |p|] == command[..|p|];
    if Has(line, p) {
      var i: nat :| MatchAt(line, p, i);
      assert line[i..i + |p|][0] == line[i];
      if i != k {
        NoCodeElsewhere(line, before, command, after, i);
      }
    }
    if command[..|p|] == p {
      assert MatchAt(line, p, k);
    }
  }

  /** The commands of a print file. */
  datatype Command = SetLine | GoHome | Move(z: string) | Query | Light | Dark

  function Text(c: Command): string {
    match c
    case SetLine => "M110 N1"
    case GoHome => "G28 Z0"
    case Move(z) => "G0 Z" + z
    case Query => "M114"
    case Light => "M106"
    case Dark => "M107"
  }

  function Meant(c: Command): Kind {
    match c
    case SetLine => Plain
    case GoHome => Home
    case Move(_) => Plain
    case Query => Lift
    case Light => LedOn
    case Dark => LedOff
  }

  /** What sprintf makes of a height. */
  predicate Height(z: string) {
    |z| < 480 && forall i :: 0 <= i < |z| ==> IsDigit(z[i]) || z[i] == '.' || z[i] == '-'
  }

  predicate Valid(c: Command) {
    c.Move? ==> Height(c.z)
  }

  lemma DigitsAreNoCode(n: nat, before: string, after: string)
    requires before == "N" + Decimal(n) + " "
    ensures NoCode(before)
  {
    forall i | 0 <= i < |before| ensures before[i] != 'M' && before[i] != 'G' {
      if 0 < i < |before| - 1 {
        assert before[i] == Decimal(n)[i - 1] && Decimal(n)[i - 1] in Decimal(n);
      }
    }
  }

  lemma TailIsNoCode(n: nat, after: string)
    requires after == "*" + Decimal(n) + "\n"
    ensures NoCode(after)
  {
    forall i | 0 <= i < |after| ensures after[i] != 'M' && after[i] != 'G' {
      if 0 < i < |after| - 1 {
        assert after[i] == Decimal(n)[i - 1] && Decimal(n)[i - 1] in Decimal(n);
      }
    }
  }

  /** Whatever its number and checksum, a framed command is taken for what it is. */
  lemma FramedMeans(n: nat, c: Command)
    requires Valid(c)
    ensures KindOf(Framed(n, Text(c))) == Meant(c)
  {
    var text, line := Text(c), Framed(n, Text(c));
    var before := "N" + Decimal(n) + " ";
    var sum := Checksum(before + text) as nat;
    var after := "*" + Decimal(sum) + "\n";
    assert line == before + text + after;
    DigitsAreNoCode(n, before, after);
    TailIsNoCode(sum, after);
    TextMeans(c, text);
    HasIff(line, before, text, after, "M114");
    HasIff(line, before, text, after, "G28");
    HasIff(line, before, text, after, "M106");
    HasIff(line, before, text, after, "M107");
  }

  lemma TextMeans(c: Command, text: string)
    requires Valid(c) && text == Text(c)
    ensures |text| >= 4 && NoCode(text[1..])
    ensures text[..4] == "M114" <==> Meant(c) == Lift
    ensures text[..3] == "G28" <==> Meant(c) == Home
    ensures text[..4] == "M106" <==> Meant(c) == LedOn
    ensures text[..4] == "M107" <==> Meant(c) == LedOff
  {
    assert text[..4][0] == text[0] && text[..4][2] == text[2] && text[..4][3] == text[3];
    assert text[..3][1] == text[1];
  }

  // ---------- The file ----------

  /** The moves of layer `k` and its exposure. */
  function Layer(moves: seq<string>, k: nat): seq<Command>
    requires 2 * k + 2 < |moves|
  {
    [Move(moves[2 * k + 1]), Move(moves[2 * k + 2]), Query, Light, Dark]
  }

  function LayersFrom(moves: seq<string>, k: nat, layers: nat): seq<Command>
    requires k <= layers && 2 * layers < |moves|
    decreases layers - k
  {
    if k == layers then [GoHome] else Layer(moves, k) + LayersFrom(moves, k + 1, layers)
  }

  function Commands(moves: seq<string>, layers: nat): seq<Command>
    requires 2 * layers < |moves|
  {
    [SetLine, GoHome, Move(moves[0]), Query, Light, Dark] + LayersFrom(moves, 0, layers)
  }

  /** The commands as lines, numbered from `n`. */
  function Lines(cs: seq<Command>, n: nat): seq<string> {
    seq(|cs|, i requires 0 <= i < |cs| => Framed(n + i, Text(cs[i])))
  }

  lemma LinesJoin(a: seq<Command>, b: seq<Command>, n: nat)
    ensures Lines(a + b, n) == Lines(a, n) + Lines(b, n + |a|)
  {
  }

  lemma LinesOne(c: Command, cs: seq<Command>, n: nat)
    ensures Lines([c] + cs, n) == [Framed(n, Text(c))] + Lines(cs, n + 1)
  {
  }

  /** One command is cut at its line end, numbered, summed and written, and the number goes up. */
  method Emit(num: string, ghost n: nat, c: Command) returns (line: string, num': string)
    requires n > 0 && num == Decimal(n) && Valid(c)
    ensures line == Framed(n, Text(c)) && num' == Decimal(n + 1)
  {
    var str := Text(c) + "\r\n";
    TextIsClean(c);
    CommandEndsAtLineEnd(Text(c), str);
    var body := "N" + num + " " + str[..CommandEnd(str)];
    var sum := XorPersonal(body);
    line := body + "*" + Decimal(sum as nat) + "\n";
    num' := SelfImposedOne(num, n);
  }

  lemma TextIsClean(c: Command)
    requires Valid(c)
    ensures Clean(Text(c)) && Text(c) != []
  {
  }

  lemma Summed(s: string, c: char, s': string, sum: bv8, sum': bv8)
    requires s' == s + [c] && Checksum(s) == sum && sum' == sum ^ ByteOf(c)
    ensures Checksum(s') == sum'
  {
    assert s'[..|s'| - 1] == s;
  }

  lemma FirstSum()
    ensures Checksum("N1 M110 N1") == 125
  {
    Summed("", 'N', "N", 0, 78);
    Summed("N", '1', "N1", 78, 127);
    Summed("N1", ' ', "N1 ", 127, 95);
    Summed("N1 ", 'M', "N1 M", 95, 18);
    Summed("N1 M", '1', "N1 M1", 18, 35);
    Summed("N1 M1", '1', "N1 M11", 35, 18);
    Summed("N1 M11", '0', "N1 M110", 18, 34);
    Summed("N1 M110", ' ', "N1 M110 ", 34, 2);
    Summed("N1 M110 ", 'N', "N1 M110 N", 2, 76);
    Summed("N1 M110 N", '1', "N1 M110 N1", 76, 125);
  }

  lemma SecondSum()
    ensures Checksum("N2 G28 Z0") == 91
  {
    Summed("", 'N', "N", 0, 78);
    Summed("N", '2', "N2", 78, 124);
    Summed("N2", ' ', "N2 ", 124, 92);
    Summed("N2 ", 'G', "N2 G", 92, 27);
    Summed("N2 G", '2', "N2 G2", 27, 41);
    Summed("N2 G2", '8', "N2 G28", 41, 17);
    Summed("N2 G28", ' ', "N2 G28 ", 17, 49);
    Summed("N2 G28 ", 'Z', "N2 G28 Z", 49, 107);
    Summed("N2 G28 Z", '0', "N2 G28 Z0", 107, 91);
  }

  /** The two lines with written-out checksums carry the right ones. */
  lemma FixedLines()
    ensures Framed(1, "M110 N1") == "N1 M110 N1*125\n"
    ensures Framed(2, "G28 Z0") == "N2 G28 Z0*91\n"
  {
    FirstSum();
    SecondSum();
    assert Decimal(1) == "1" && Decimal(2) == "2";
    assert Decimal(125) == Decimal(12) + "5" && Decimal(12) == Decimal(1) + "2" && Decimal(91) == Decimal(9) + "1";
    assert "N" + "1" + " " + "M110 N1" == "N1 M110 N1" && "N" + "2" + " " + "G28 Z0" == "N2 G28 Z0";
  }

  ghost predicate Planned(moves: seq<string>, layers: nat) {
    |moves| == 2 * layers + 1 && forall i :: 0 <= i < |moves| ==> Height(moves[i])
  }

  /** GMCreat: the file is every command framed under its own number, 1, 2, 3 and so on. */
  method GMCreat(moves: seq<string>, layers: nat) returns (lines: seq<string>)
    requires Planned(moves, layers)
    ensures lines == Lines(Commands(moves, layers), 1)
  {
    FixedLines();
    lines := ["N1 M110 N1*125\n", "N2 G28 Z0*91\n"];
    assert Decimal(1) == "1";
    var num := SelfImposedOne("1", 1);
    num := SelfImposedOne(num, 2);
    ghost var done: seq<Command> := [SetLine, GoHome];
    assert lines == Lines(done, 1);
    lines, num := EmitAll(lines, num, done, [Move(moves[0]), Query, Light, Dark]);
    done := done + [Move(moves[0]), Query, Light, Dark];
    var k := 0;
    while k < layers
      invariant k <= layers && lines == Lines(done, 1) && num == Decimal(|done| + 1)
      invariant done + LayersFrom(moves, k, layers) == Commands(moves, layers)
    {
      lines, num := EmitAll(lines, num, done, Layer(moves, k));
      done := done + Layer(moves, k);
      k := k + 1;
    }
    lines, num := EmitAll(lines, num, done, [GoHome]);
  }

  method EmitAll(lines: seq<string>, num: string, ghost done: seq<Command>, cs: seq<Command>)
    returns (lines': seq<string>, num': string)
    requires lines == Lines(done, 1) && num == Decimal(|done| + 1)
    requires forall i :: 0 <= i < |cs| ==> Valid(cs[i])
    ensures lines' == Lines(done + cs, 1) && num' == Decimal(|done + cs| + 1)
  {
    lines', num' := lines, num;
    var i := 0;
    while i < |cs|
      invariant i <= |cs| && lines' == Lines(done + cs[..i], 1) && num' == Decimal(|done| + i + 1)
    {
      ghost var n := |done| + i + 1;
      var line: string;
      line, num' := Emit(num', n, cs[i]);
      LinesJoin(done + cs[..i], [cs[i]], 1);
      assert done + cs[..i + 1] == done + cs[..i] + [cs[i]];
      lines' := lines' + [line];
      i := i + 1;
    }
    assert cs[..i] == cs;
  }

  /** GM_Read: feof turns true only after a read has failed, so the last line is queued a second time. */
  method GmRead(file: seq<string>) returns (queue: seq<string>)
    requires file != []
    ensures queue == file + [file[|file| - 1]]
  {
    queue := [];
    var com, next, eof := file[0], 0, false;
    while !eof
      invariant next <= |file| && (next > 0 ==> com == file[next - 1])
      invariant !eof ==> queue == file[..next]
      invariant eof ==> next == |file| && queue == file + [file[|file| - 1]]
      decreases if eof then 0 else 1, |file| - next
    {
      if next < |file| {
        com, next := file[next], next + 1;
      } else {
        eof := true;
      }
      queue := queue + [com];
    }
  }

  ghost function Kinds(queue: seq<string>): seq<Kind> {
    if queue == [] then [] else [KindOf(queue[0])] + Kinds(queue[1..])
  }

  function AllMeant(cs: seq<Command>): seq<Kind> {
    if cs == [] then [] else [Meant(cs[0])] + AllMeant(cs[1..])
  }

  lemma {:induction false} KindsOfLines(cs: seq<Command>, n: nat)
    requires forall i :: 0 <= i < |cs| ==> Valid(cs[i])
    ensures Kinds(Lines(cs, n)) == AllMeant(cs)
    decreases |cs|
  {
    if cs != [] {
      var lines, rest := Lines(cs, n), Lines(cs[1..], n + 1);
      assert lines == [Framed(n, Text(cs[0]))] + rest by {
        assert cs == [cs[0]] + cs[1..];
        LinesOne(cs[0], cs[1..], n);
      }
      assert lines[1..] == rest;
      FramedMeans(n, cs[0]);
      KindsOfLines(cs[1..], n + 1);
    }
  }

  lemma {:induction false} KindsJoin(a: seq<string>, b: seq<string>)
    ensures Kinds(a + b) == Kinds(a) + Kinds(b)
    decreases |a|
  {
    if a == [] {
      assert a + b == b;
    } else {
      assert (a + b)[1..] == a[1..] + b;
      KindsJoin(a[1..], b);
    }
  }

  predicate Turns(p: Phase, k: Kind, p': Phase) {
    match k
    case Plain => p' == p
    case Home => p' == p
    case Lift => p == Open && p' == Settled
    case LedOn => p == Settled && p' == Lit
    case LedOff => p == Lit && p' == Open
  }

  /** The kinds of the commands and of what follows them keep to the cycle from `p` on, with `lights` exposures. */
  predicate Tail(cs: seq<Command>, last: seq<Kind>, p: Phase, lights: nat) {
    Cycles(AllMeant(cs) + last, p) && Lights(AllMeant(cs) + last) == lights
  }

  lemma TailStep(c: Command, cs: seq<Command>, cs': seq<Command>, last: seq<Kind>, p: Phase, p': Phase, lights: nat)
    requires Tail(cs, last, p', lights) && Turns(p, Meant(c), p') && cs' == [c] + cs
    ensures Tail(cs', last, p, if c == Light then lights + 1 else lights)
  {
    var q, q' := AllMeant(cs) + last, AllMeant(cs') + last;
    assert cs'[1..] == cs;
    assert q' == [Meant(c)] + q;
    assert q'[1..] == q;
  }

  lemma ExposureTail(m: Command, r4: seq<Command>, r0: seq<Command>, last: seq<Kind>, lights: nat)
    requires m.Move? && Tail(r4, last, Open, lights) && r0 == [m, Query, Light, Dark] + r4
    ensures Tail(r0, last, Open, lights + 1)
  {
    var r3 := [Dark] + r4;
    var r2 := [Light] + r3;
    var r1 := [Query] + r2;
    assert r0 == [m] + r1;
    TailStep(Dark, r4, r3, last, Lit, Open, lights);
    TailStep(Light, r3, r2, last, Settled, Lit, lights);
    TailStep(Query, r2, r1, last, Open, Settled, lights + 1);
    TailStep(m, r1, r0, last, Open, Open, lights + 1);
  }

  lemma {:induction false} LayersCycle(moves: seq<string>, k: nat, layers: nat, last: seq<Kind>)
    requires k <= layers && 2 * layers < |moves| && last == [Home]
    ensures Tail(LayersFrom(moves, k, layers), last, Open, layers - k)
    decreases layers - k
  {
    if k == layers {
      var none: seq<Command> := [];
      NoneLeft(none, last);
      TailStep(GoHome, none, [GoHome], last, Open, Open, 0);
    } else {
      LayersCycle(moves, k + 1, layers, last);
      var m, r5 := Move(moves[2 * k + 2]), LayersFrom(moves, k + 1, layers);
      var r1 := [m, Query, Light, Dark] + r5;
      assert LayersFrom(moves, k, layers) == [Move(moves[2 * k + 1])] + r1;
      ExposureTail(m, r5, r1, last, layers - k - 1);
      TailStep(Move(moves[2 * k + 1]), r1, LayersFrom(moves, k, layers), last, Open, Open, layers - k);
    }
  }

  lemma NoneLeft(none: seq<Command>, last: seq<Kind>)
    requires none == [] && last == [Home]
    ensures Tail(none, last, Open, 0)
  {
    assert AllMeant(none) + last == last && last[1..] == [];
  }

  /** The file of a print with `layers` layers, as it is queued: it keeps to the cycle and has one exposure more. */
  lemma FileCycles(moves: seq<string>, layers: nat, lines: seq<string>)
    requires Planned(moves, layers) && lines == Lines(Commands(moves, layers), 1)
    ensures lines != []
    ensures Cycles(Kinds(lines + [lines[|lines| - 1]]), Open)
    ensures Lights(Kinds(lines + [lines[|lines| - 1]])) == layers + 1
  {
    var cs, last := Commands(moves, layers), [Home];
    CommandsAreValid(moves, layers);
    KindsOfLines(cs, 1);
    LastIsHome(moves, layers, lines);
    var repeated := [lines[|lines| - 1]];
    KindsJoin(lines, repeated);
    assert Kinds(repeated) == last by { assert repeated[1..] == []; }
    StartCycles(moves, layers, last);
  }

  lemma StartCycles(moves: seq<string>, layers: nat, last: seq<Kind>)
    requires 2 * layers < |moves| && last == [Home]
    ensures Tail(Commands(moves, layers), last, Open, layers + 1)
  {
    LayersCycle(moves, 0, layers, last);
    var r6 := LayersFrom(moves, 0, layers);
    var r1 := [GoHome, Move(moves[0]), Query, Light, Dark] + r6;
    var r2 := [Move(moves[0]), Query, Light, Dark] + r6;
    assert r1 == [GoHome] + r2 && Commands(moves, layers) == [SetLine] + r1;
    ExposureTail(Move(moves[0]), r6, r2, last, layers);
    TailStep(GoHome, r2, r1, last, Open, Open, layers + 1);
    TailStep(SetLine, r1, Commands(moves, layers), last, Open, Open, layers + 1);
  }

  lemma {:induction false} LayersAreValid(moves: seq<string>, k: nat, layers: nat)
    requires Planned(moves, layers) && k <= layers
    ensures var cs := LayersFrom(moves, k, layers); cs != [] && cs[|cs| - 1] == GoHome && forall i :: 0 <= i < |cs| ==> Valid(cs[i])
    decreases layers - k
  {
    if k < layers {
      LayersAreValid(moves, k + 1, layers);
    }
  }

  lemma CommandsAreValid(moves: seq<string>, layers: nat)
    requires Planned(moves, layers)
    ensures var cs := Commands(moves, layers); cs != [] && cs[|cs| - 1] == GoHome && forall i :: 0 <= i < |cs| ==> Valid(cs[i])
  {
    LayersAreValid(moves, 0, layers);
  }

  lemma LastIsHome(moves: seq<string>, layers: nat, lines: seq<string>)
    requires Planned(moves, layers) && lines == Lines(Commands(moves, layers), 1)
    ensures lines != [] && KindOf(lines[|lines| - 1]) == Home
  {
    CommandsAreValid(moves, layers);
    FramedMeans(|lines|, GoHome);
  }

  // ---------- Heights ----------

  /** The heights that the platform was sent to, in order. */
  function Moved(cs: seq<Command>): seq<string> {
    if cs == [] then [] else Moved(cs[..|cs| - 1]) + if cs[|cs| - 1].Move? then [cs[|cs| - 1].z] else []
  }

  function Exposures(cs: seq<Command>): nat {
    if cs == [] then 0 else Exposures(cs[..|cs| - 1]) + if cs[|cs| - 1].Light? then 1 else 0
  }

  /** The heights of a print: the working level, and for every layer the lift and then the level of the layer. */
  function Heights(base: real, back: real, level: real, layers: nat, shown: real -> string): (r: seq<string>)
    ensures |r| == 2 * layers + 1
  {
    if layers == 0 then [shown(base)]
    else
      Heights(base, back, level, layers - 1, shown)
      + [shown(base - (layers - 1) as real * level - back), shown(base - layers as real * level)]
  }

  lemma {:induction false} HeightAt(base: real, back: real, level: real, layers: nat, shown: real -> string, k: nat)
    requires k <= layers
    ensures var r := Heights(base, back, level, layers, shown);
      && r[2 * k] == shown(base - k as real * level)
      && (k > 0 ==> r[2 * k - 1] == shown(base - (k - 1) as real * level - back))
    decreases layers
  {
    if k < layers {
      HeightAt(base, back, level, layers - 1, shown, k);
    }
  }

  lemma MovedSnoc(cs: seq<Command>, c: Command)
    ensures Moved(cs + [c]) == Moved(cs) + if c.Move? then [c.z] else []
    ensures Exposures(cs + [c]) == Exposures(cs) + if c.Light? then 1 else 0
  {
    assert (cs + [c])[..|cs + [c]| - 1] == cs;
  }

  /** After `front` every exposure comes behind two more moves. */
  predicate InStep(cs: seq<Command>, moves: seq<string>) {
    forall i :: 0 <= i < |cs| && cs[i].Light? ==>
      var k := Exposures(cs[..i]); 2 * k < |moves| && Moved(cs[..i]) == moves[..2 * k + 1]
  }

  lemma InStepSnoc(cs: seq<Command>, c: Command, moves: seq<string>)
    requires InStep(cs, moves)
    requires c.Light? ==> 2 * Exposures(cs) < |moves| && Moved(cs) == moves[..2 * Exposures(cs) + 1]
    ensures InStep(cs + [c], moves)
  {
    forall i | 0 <= i < |cs| + 1 && (cs + [c])[i].Light?
      ensures var k := Exposures((cs + [c])[..i]); 2 * k < |moves| && Moved((cs + [c])[..i]) == moves[..2 * k + 1] {
      assert (cs + [c])[..i] == cs[..i];
      assert cs[..|cs|] == cs;
    }
  }

  /** A move, the query and the exposure. */
  lemma ExposureInStep(front: seq<Command>, moves: seq<string>, k: nat) returns (cs: seq<Command>)
    requires InStep(front, moves) && Exposures(front) == k && 2 * k < |moves| && Moved(front) == moves[..2 * k]
    ensures cs == front + [Move(moves[2 * k]), Query, Light, Dark]
    ensures InStep(cs, moves) && Exposures(cs) == k + 1 && Moved(cs) == moves[..2 * k + 1]
  {
    var c1 := front + [Move(moves[2 * k])];
    var c2 := c1 + [Query];
    var c3 := c2 + [Light];
    MovedSnoc(front, Move(moves[2 * k]));
    InStepSnoc(front, Move(moves[2 * k]), moves);
    assert moves[..2 * k] + [moves[2 * k]] == moves[..2 * k + 1];
    MovedSnoc(c1, Query);
    InStepSnoc(c1, Query, moves);
    MovedSnoc(c2, Light);
    InStepSnoc(c2, Light, moves);
    MovedSnoc(c3, Dark);
    InStepSnoc(c3, Dark, moves);
    cs := c3 + [Dark];
  }

  lemma {:induction false} LayersInStep(front: seq<Command>, moves: seq<string>, k: nat, layers: nat)
    requires k <= layers && 2 * layers < |moves|
    requires InStep(front, moves) && Exposures(front) == k + 1 && Moved(front) == moves[..2 * k + 1]
    ensures InStep(front + LayersFrom(moves, k, layers), moves)
    decreases layers - k
  {
    if k == layers {
      InStepSnoc(front, GoHome, moves);
    } else {
      var lifted := front + [Move(moves[2 * k + 1])];
      MovedSnoc(front, Move(moves[2 * k + 1]));
      InStepSnoc(front, Move(moves[2 * k + 1]), moves);
      assert moves[..2 * k + 1] + [moves[2 * k + 1]] == moves[..2 * (k + 1)];
      var next := ExposureInStep(lifted, moves, k + 1);
      LayersInStep(next, moves, k + 1, layers);
      LayerAppended(front, Move(moves[2 * k + 1]), [Move(moves[2 * k + 2]), Query, Light, Dark], LayersFrom(moves, k + 1, layers));
      assert [Move(moves[2 * k + 1])] + [Move(moves[2 * k + 2]), Query, Light, Dark] == Layer(moves, k);
    }
  }

  lemma LayerAppended(front: seq<Command>, lift: Command, exposure: seq<Command>, rest: seq<Command>)
    ensures front + ([lift] + exposure + rest) == front + [lift] + exposure + rest
  {
  }

  lemma CommandsInStep(moves: seq<string>, layers: nat)
    requires 2 * layers < |moves|
    ensures InStep(Commands(moves, layers), moves)
  {
    var start := StartInStep(moves);
    var next := ExposureInStep(start, moves, 0);
    var rest := LayersFrom(moves, 0, layers);
    LayersInStep(next, moves, 0, layers);
    assert [SetLine, GoHome] + [Move(moves[0]), Query, Light, Dark] == [SetLine, GoHome, Move(moves[0]), Query, Light, Dark];
  }

  lemma StartInStep(moves: seq<string>) returns (start: seq<Command>)
    requires moves != []
    ensures start == [SetLine, GoHome] && InStep(start, moves) && Exposures(start) == 0 && Moved(start) == moves[..0]
  {
    var none: seq<Command> := [];
    MovedSnoc(none, SetLine);
    InStepSnoc(none, SetLine, moves);
    MovedSnoc(none + [SetLine], GoHome);
    InStepSnoc(none + [SetLine], GoHome, moves);
    start := none + [SetLine] + [GoHome];
  }

  /** The last move in front of the k-th exposure goes to the level of its layer, k levels from the working level, and the one
      before it is the lift away from the layer before. */
  lemma ExposureHeights(base: real, back: real, level: real, layers: nat, shown: real -> string, cs: seq<Command>, i: nat)
    returns (k: nat, moved: seq<string>)
    requires cs == Commands(Heights(base, back, level, layers, shown), layers) && i < |cs| && cs[i].Light?
    ensures k == Exposures(cs[..i]) && moved == Moved(cs[..i])
    ensures k <= layers && |moved| == 2 * k + 1 && moved[2 * k] == shown(base - k as real * level)
    ensures k > 0 ==> moved[2 * k - 1] == shown(base - (k - 1) as real * level - back)
  {
    var moves := Heights(base, back, level, layers, shown);
    k, moved := Exposures(cs[..i]), Moved(cs[..i]);
    CommandsInStep(moves, layers);
    InStepAt(cs, moves, i, k, moved);
    HeightAt(base, back, level, layers, shown, k);
  }

  lemma InStepAt(cs: seq<Command>, moves: seq<string>, i: nat, k: nat, moved: seq<string>)
    requires InStep(cs, moves) && i < |cs| && cs[i].Light? && k == Exposures(cs[..i]) && moved == Moved(cs[..i])
    ensures 2 * k < |moves| && |moved| == 2 * k + 1 && moved[2 * k] == moves[2 * k] && (k > 0 ==> moved[2 * k - 1] == moves[2 * k - 1])
  {
  }

  /** A whole print: in every interleaving, when the queue of a file with `layers` layers has run empty, every layer
      and the first picture have been exposed, each after its own picture was shown. */
  lemma PrintExposesEveryLayer(moves: seq<string>, layers: nat, lines: seq<string>, queue: seq<Kind>, base: nat,
                               states: seq<State>, acts: seq<Action>)
    requires Planned(moves, layers) && lines == Lines(Commands(moves, layers), 1) && lines != []
    requires queue == Kinds(lines + [lines[|lines| - 1]])
    requires Run(states, acts, queue, base) && states[|acts|].queue == []
    ensures Count(acts, FunThree, |acts|) == Count(acts, ExposureEnds, |acts|) == layers + 1
    ensures forall i: nat :: i < |acts| && acts[i] == FunThree ==> Count(acts, Show, i) == Count(acts, FunThree, i + 1)
  {
    FileCycles(moves, layers, lines);
    AllExposed(states, acts, queue, base);
    forall i: nat | i < |acts| && acts[i] == FunThree ensures Count(acts, Show, i) == Count(acts, FunThree, i + 1) {
      ExposureAfterItsPicture(states, acts, queue, base, i);
    }
  }

  /** The pictures that bmp_255 draws for the base layers of a print stay clear of its exposures in every interleaving exactly
      if there is at most one base layer. */
  lemma PrintHoldsBaseBackIff(moves: seq<string>, layers: nat, lines: seq<string>, queue: seq<Kind>, base: nat)
    requires Planned(moves, layers) && lines == Lines(Commands(moves, layers), 1) && lines != []
    requires queue == Kinds(lines + [lines[|lines| - 1]])
    ensures HeldBack(queue, base) <==> base <= 1
  {
    FileCycles(moves, layers, lines);
    BaseHeldBackIff(queue, base);
  }
}
