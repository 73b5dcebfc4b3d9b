/**
 marlinHost.cpp and SLC_Read.cpp: the send loop, the reply handler and the slice reader, which share the command
 queue and file_continue_flag, as steps over every interleaving. An ok may come whenever the head command has been
 sent; nobody pauses or stops the print, and the slice file has more layers. In front of the layers of the file come the
 base layers: for each of them bmp_255 draws a white picture before the reader waits for the flag.
 */
module DlpHandshake {

  /** What compareSelf makes of a command: 0, 1 (G28), 3 (M114), 2 (M106) and 4 (M107). */
  datatype Kind = Plain | Home | Lift | LedOn | LedOff

  /** Before `while(!file_continue_flag)`, in it, before show_bmp, and before the flag is cleared. */
  datatype Reader = Preparing | Waiting | Showing | Clearing

  /** No ok, an ok for the head command not acted on, in the delay of fun3, and before delHeadGoods. */
  datatype Replier = Idle | Acting | Exposing | Dropping

  /** `base`: the base layers for which bmp_255 is still to come. */
  datatype State = State(queue: seq<Kind>, sent: bool, flag: bool, replier: Replier, reader: Reader, base: nat)

  datatype Action =
    Send | Ok | FunOne | FunTwo | FunThree | ExposureEnds | NoFun | Drop |
    Draw | Prepared | Enter | Show | Clear

  /** print() has allowed the first layer and read the commands. */
  function Start(queue: seq<Kind>, base: nat): State {
    State(queue, false, true, Idle, Preparing, base)
  }

  predicate Acts(s: State, k: Kind) {
    s.replier == Acting && s.queue != [] && s.queue[0] == k
  }

  predicate Enabled(s: State, a: Action) {
    match a
    case Send => s.queue != []
    case Ok => s.replier == Idle && s.queue != [] && s.sent
    case FunOne => Acts(s, LedOff)
    case FunTwo => Acts(s, Lift) && !s.flag
    case FunThree => Acts(s, LedOn)
    case ExposureEnds => s.replier == Exposing
    case NoFun => Acts(s, Plain) || Acts(s, Home)
    case Drop => s.replier == Dropping && s.queue != []
    case Draw => s.reader == Preparing && s.base > 0
    case Prepared => s.reader == Preparing && s.base == 0
    case Enter => s.reader == Waiting && s.flag
    case Show => s.reader == Showing
    case Clear => s.reader == Clearing
  }

  function Next(s: State, a: Action): State
    requires Enabled(s, a)
  {
    match a
    case Send => s.(sent := true)
    case Ok => s.(replier := Acting)
    case FunOne => s.(flag := true, replier := Dropping)
    case FunTwo => s.(replier := Dropping)
    case FunThree => s.(replier := Exposing)
    case ExposureEnds => s.(replier := Dropping)
    case NoFun => s.(replier := Dropping)
    case Drop => s.(queue := s.queue[1..], sent := false, replier := Idle)
    case Draw => s.(reader := Waiting, base := s.base - 1)
    case Prepared => s.(reader := Waiting)
    case Enter => s.(reader := Showing)
    case Show => s.(reader := Clearing)
    case Clear => s.(flag := false, reader := Preparing)
  }

  /** A run: the state before each action and the last state. */
  ghost predicate Run(states: seq<State>, acts: seq<Action>, queue: seq<Kind>, base: nat) {
    Path(states, acts) && states[0] == Start(queue, base)
  }

  ghost predicate Path(states: seq<State>, acts: seq<Action>) {
    |states| == |acts| + 1 && forall i: nat :: i < |acts| ==> Taken(states, acts, i)
  }

  ghost predicate Taken(states: seq<State>, acts: seq<Action>, i: nat)
    requires |states| == |acts| + 1 && i < |acts|
  {
    Enabled(states[i], acts[i]) && states[i + 1] == Next(states[i], acts[i])
  }

  /** How often `a` is among the first `n` actions. */
  function Count(acts: seq<Action>, a: Action, n: nat): nat
    requires n <= |acts|
  {
    if n == 0 then 0 else Count(acts, a, n - 1) + if acts[n - 1] == a then 1 else 0
  }

  // ---------- Scripts ----------

  /** Where the commands stand in the cycle M114, M106, M107. */
  datatype Phase = Open | Settled | Lit

  /** The rest of a script asks for the three in turn, with other commands anywhere. */
  predicate Cycles(queue: seq<Kind>, p: Phase) {
    queue == [] ||
    match queue[0]
    case Plain => Cycles(queue[1..], p)
    case Home => Cycles(queue[1..], p)
    case Lift => p == Open && Cycles(queue[1..], Settled)
    case LedOn => p == Settled && Cycles(queue[1..], Lit)
    case LedOff => p == Lit && Cycles(queue[1..], Open)
  }

  function Lights(queue: seq<Kind>): nat {
    if queue == [] then 0 else (if queue[0] == LedOn then 1 else 0) + Lights(queue[1..])
  }

  /** The commands that have not been acted on. */
  function Rest(s: State): seq<Kind> {
    if (s.replier == Exposing || s.replier == Dropping) && s.queue != [] then s.queue[1..] else s.queue
  }

  function Then(p: Phase, a: Action): Phase {
    if a == FunTwo then Settled else if a == FunThree then Lit else if a == FunOne then Open else p
  }

  // ---------- The invariant ----------

  /** The counters of the ghost observer: calls of show_bmp, exposures, ended exposures and calls of fun1. */
  datatype Seen = Seen(shows: nat, exposures: nat, ended: nat, offs: nat)

  function See(c: Seen, a: Action): Seen {
    match a
    case Show => c.(shows := c.shows + 1)
    case FunThree => c.(exposures := c.exposures + 1)
    case ExposureEnds => c.(ended := c.ended + 1)
    case FunOne => c.(offs := c.offs + 1)
    case _ => c
  }

  /** Between a finished M114 and the next M107 the flag is down and the picture stands still. */
  predicate Good(s: State, p: Phase, c: Seen, total: nat) {
    && (s.replier != Idle ==> s.queue != [] && s.sent)
    && Cycles(Rest(s), p)
    && c.exposures + Lights(Rest(s)) == total
    && c.exposures == c.offs + (if p == Lit then 1 else 0)
    && c.ended == c.exposures - (if s.replier == Exposing then 1 else 0)
    && (s.replier == Exposing ==> p == Lit)
    && (p != Open ==> !s.flag)
    && c.shows == c.offs + (if s.flag && s.reader != Clearing then 0 else 1)
    && (s.reader == Showing || s.reader == Clearing ==> s.flag)
  }

  lemma StartIsGood(queue: seq<Kind>, base: nat)
    requires Cycles(queue, Open)
    ensures Good(Start(queue, base), Open, Seen(0, 0, 0, 0), Lights(queue))
  {
  }

  lemma StepKeepsGood(s: State, p: Phase, c: Seen, total: nat, a: Action)
    requires Good(s, p, c, total) && Enabled(s, a)
    ensures Good(Next(s, a), Then(p, a), See(c, a), total)
  {
  }

  /** Every state of every run is good, and the observer counts the actions. */
  lemma {:induction false} RunIsGood(states: seq<State>, acts: seq<Action>, queue: seq<Kind>, base: nat, n: nat)
    returns (p: Phase, c: Seen)
    requires Run(states, acts, queue, base) && n <= |acts| && Cycles(queue, Open)
    ensures Good(states[n], p, c, Lights(queue))
    ensures c == Seen(Count(acts, Show, n), Count(acts, FunThree, n), Count(acts, ExposureEnds, n), Count(acts, FunOne, n))
    decreases n
  {
    if n == 0 {
      StartIsGood(queue, base);
      p, c := Open, Seen(0, 0, 0, 0);
    } else {
      var p', c' := RunIsGood(states, acts, queue, base, n - 1);
      assert Taken(states, acts, n - 1);
      StepKeepsGood(states[n - 1], p', c', Lights(queue), acts[n - 1]);
      p, c := Then(p', acts[n - 1]), See(c', acts[n - 1]);
    }
  }

  // ---------- The handshake ----------

  /** The k-th exposure happens after exactly k calls of show_bmp, all of them finished. */
  lemma ExposureAfterItsPicture(states: seq<State>, acts: seq<Action>, queue: seq<Kind>, base: nat, i: nat)
    requires Run(states, acts, queue, base) && Cycles(queue, Open) && i < |acts| && acts[i] == FunThree
    ensures Count(acts, Show, i) == Count(acts, FunThree, i + 1)
    ensures states[i].reader == Preparing || states[i].reader == Waiting
  {
    var p, c := RunIsGood(states, acts, queue, base, i);
    assert Taken(states, acts, i);
  }

  /** The picture after the k-th is not shown before the k-th M107 is acknowledged, nor while an exposure lasts. */
  lemma PictureAfterItsRelease(states: seq<State>, acts: seq<Action>, queue: seq<Kind>, base: nat, i: nat)
    requires Run(states, acts, queue, base) && Cycles(queue, Open) && i < |acts| && acts[i] == Show
    ensures Count(acts, FunOne, i) == Count(acts, Show, i)
    ensures Count(acts, FunThree, i) == Count(acts, ExposureEnds, i) == Count(acts, Show, i)
  {
    var p, c := RunIsGood(states, acts, queue, base, i);
    assert Taken(states, acts, i);
  }

  // ---------- Progress ----------

  function ReplierRank(s: State): nat {
    match s.replier
    case Idle => if s.sent then 8 else 9
    case Acting => 7
    case Exposing => 2
    case Dropping => 1
  }

  function ReaderRank(s: State): nat {
    match s.reader
    case Preparing => if s.flag then 5 else 1
    case Waiting => if s.flag then 4 else 0
    case Showing => 3
    case Clearing => 2
  }

  function Measure(s: State): nat {
    12 * |s.queue| + ReplierRank(s) + ReaderRank(s)
  }

  /** Every action but sending the same command once more uses up a bounded supply: nobody loops for ever. */
  lemma StepsRunOut(s: State, p: Phase, c: Seen, total: nat, a: Action)
    requires Good(s, p, c, total) && Enabled(s, a) && Next(s, a) != s
    ensures Measure(Next(s, a)) < Measure(s)
  {
  }

  /** How many of the first `n` actions changed the state. */
  function Moves(states: seq<State>, n: nat): nat
    requires n < |states|
  {
    if n == 0 then 0 else Moves(states, n - 1) + if states[n] == states[n - 1] then 0 else 1
  }

  /** However the threads interleave, a print takes a bounded number of moves. */
  lemma {:induction false} RunsEnd(states: seq<State>, acts: seq<Action>, queue: seq<Kind>, base: nat, n: nat)
    requires Run(states, acts, queue, base) && n <= |acts| && Cycles(queue, Open)
    ensures Moves(states, n) + Measure(states[n]) <= 12 * |queue| + 14
    decreases n
  {
    if n > 0 {
      RunsEnd(states, acts, queue, base, n - 1);
      var p, c := RunIsGood(states, acts, queue, base, n - 1);
      assert Taken(states, acts, n - 1);
      if states[n] != states[n - 1] {
        StepsRunOut(states[n - 1], p, c, Lights(queue), acts[n - 1]);
      }
    }
  }

  /** While there are commands something can happen: fun2 never waits for a picture that nobody will show. */
  lemma NeverStuck(s: State, p: Phase, c: Seen, total: nat) returns (a: Action)
    requires Good(s, p, c, total) && s.queue != []
    ensures Enabled(s, a) && Next(s, a) != s
  {
    match s.replier
    case Idle => a := if s.sent then Ok else Send;
    case Exposing => a := ExposureEnds;
    case Dropping => a := Drop;
    case Acting =>
      match s.queue[0] {
        case Plain => a := NoFun;
        case Home => a := NoFun;
        case LedOn => a := FunThree;
        case LedOff => a := FunOne;
        case Lift =>
          if !s.flag {
            a := FunTwo;
          } else {
            match s.reader
            case Preparing => a := if s.base > 0 then Draw else Prepared;
            case Waiting => a := Enter;
            case Showing => a := Show;
            case Clearing => a := Clear;
          }
      }
  }

  /** When the queue has run empty every layer has been exposed. */
  lemma AllExposed(states: seq<State>, acts: seq<Action>, queue: seq<Kind>, base: nat)
    requires Run(states, acts, queue, base) && Cycles(queue, Open) && states[|acts|].queue == []
    ensures Count(acts, FunThree, |acts|) == Count(acts, ExposureEnds, |acts|) == Lights(queue)
  {
    var p, c := RunIsGood(states, acts, queue, base, |acts|);
  }

  // ---------- The pictures of bmp_255 ----------

  /** The white picture of a base layer is drawn while an exposure lasts. */
  predicate DrawnInExposure(states: seq<State>, acts: seq<Action>, i: nat) {
    i < |acts| && i < |states| && acts[i] == Draw && states[i].replier == Exposing
  }

  /** The handshake keeps every drawing away from the exposures. */
  ghost predicate HeldBack(queue: seq<Kind>, base: nat) {
    forall states, acts, i: nat :: Run(states, acts, queue, base) ==> !DrawnInExposure(states, acts, i)
  }

  /** Up to the first drawing the flag is up: nothing is exposed. */
  lemma {:induction false} FlagUpBefore(states: seq<State>, acts: seq<Action>, queue: seq<Kind>, base: nat, n: nat)
    requires Run(states, acts, queue, base) && n <= |acts| && states[n].base == base > 0
    ensures states[n].reader == Preparing && states[n].flag
    decreases n
  {
    if n > 0 {
      assert Taken(states, acts, n - 1);
      BaseGoesDown(states, acts, queue, base, n - 1);
      FlagUpBefore(states, acts, queue, base, n - 1);
    }
  }

  lemma {:induction false} BaseGoesDown(states: seq<State>, acts: seq<Action>, queue: seq<Kind>, base: nat, n: nat)
    requires Run(states, acts, queue, base) && n <= |acts|
    ensures states[n].base <= base
    decreases n
  {
    if n > 0 {
      assert Taken(states, acts, n - 1);
      BaseGoesDown(states, acts, queue, base, n - 1);
    }
  }

  lemma OneBaseLayer(states: seq<State>, acts: seq<Action>, queue: seq<Kind>, base: nat, i: nat)
    requires Run(states, acts, queue, base) && Cycles(queue, Open) && base <= 1
    ensures !DrawnInExposure(states, acts, i)
  {
    if i < |acts| && acts[i] == Draw {
      assert Taken(states, acts, i);
      BaseGoesDown(states, acts, queue, base, i);
      FlagUpBefore(states, acts, queue, base, i);
      var p, c := RunIsGood(states, acts, queue, base, i);
    }
  }

  /** Two paths, the second from where the first ends. */
  lemma PathJoin(states: seq<State>, acts: seq<Action>, states': seq<State>, acts': seq<Action>)
    requires Path(states, acts) && Path(states', acts') && states[|acts|] == states'[0]
    ensures Path(states + states'[1..], acts + acts')
    ensures (states + states'[1..])[|acts + acts'|] == states'[|acts'|]
  {
    var s, a := states + states'[1..], acts + acts';
    forall i: nat | i < |a| ensures Taken(s, a, i) {
      if i < |acts| {
        assert Taken(states, acts, i);
      } else {
        assert Taken(states', acts', i - |acts|);
        assert s[i] == states'[i - |acts|] && s[i + 1] == states'[i - |acts| + 1];
      }
    }
  }

  /** A command that is sent, answered and acted on. */
  lemma OneCommand(s: State, fun: Action, k: Kind) returns (states: seq<State>, acts: seq<Action>)
    requires s.queue != [] && s.queue[0] == k && !s.sent && s.replier == Idle
    requires fun == (match k case Lift => FunTwo case LedOn => FunThree case LedOff => FunOne case _ => NoFun) && (k == Lift ==> !s.flag)
    ensures Path(states, acts) && states[0] == s && acts == [Send, Ok, fun]
    ensures states[3] == Next(s.(sent := true, replier := Acting), fun)
  {
    acts := [Send, Ok, fun];
    states := [s, s.(sent := true), s.(sent := true, replier := Acting), Next(s.(sent := true, replier := Acting), fun)];
    forall i: nat | i < |acts| ensures Taken(states, acts, i) {
    }
  }

  /** With the flag down, an exposure can be reached while the reader stands still. */
  lemma {:induction false} ExposureAhead(s: State, p: Phase) returns (states: seq<State>, acts: seq<Action>)
    requires Cycles(s.queue, p) && p != Lit && Lights(s.queue) > 0 && !s.sent && !s.flag && s.replier == Idle
    ensures Path(states, acts) && states[0] == s
    ensures var last := states[|acts|]; last.replier == Exposing && last.reader == s.reader && last.base == s.base
    decreases |s.queue|
  {
    var k := s.queue[0];
    if k == LedOn {
      states, acts := OneCommand(s, FunThree, k);
    } else {
      var fun := if k == Lift then FunTwo else NoFun;
      var first, done := OneCommand(s, fun, k);
      var dropping := first[3];
      var next := Next(dropping, Drop);
      var step := [dropping, next];
      assert Path(step, [Drop]) by {
        assert Taken(step, [Drop], 0);
      }
      PathJoin(first, done, step, [Drop]);
      var rest, more := ExposureAhead(next, if k == Lift then Settled else p);
      PathJoin(first + step[1..], done + [Drop], rest, more);
      states, acts := first + step[1..] + rest[1..], done + [Drop] + more;
    }
  }

  /** From the start to where the first picture has been shown and taken. */
  lemma FirstPicture(queue: seq<Kind>, base: nat) returns (states: seq<State>, acts: seq<Action>)
    requires base > 0
    ensures Run(states, acts, queue, base) && states[|acts|] == State(queue, false, false, Idle, Preparing, base - 1)
  {
    var s := Start(queue, base);
    var s1 := s.(reader := Waiting, base := base - 1);
    acts := [Draw, Enter, Show, Clear];
    states := [s, s1, s1.(reader := Showing), s1.(reader := Clearing), s1.(flag := false, reader := Preparing)];
    forall i: nat | i < |acts| ensures Taken(states, acts, i) {
    }
  }

  /** With two base layers or more some run draws the second white picture into an exposure. */
  lemma DrawsIntoExposure(queue: seq<Kind>, base: nat) returns (states: seq<State>, acts: seq<Action>, i: nat)
    requires Cycles(queue, Open) && Lights(queue) > 0 && base >= 2
    ensures Run(states, acts, queue, base) && DrawnInExposure(states, acts, i)
  {
    var first, done := FirstPicture(queue, base);
    var rest, more := ExposureAhead(first[|done|], Open);
    PathJoin(first, done, rest, more);
    var upTo, told := first + rest[1..], done + more;
    var last := upTo[|told|];
    var step := [last, Next(last, Draw)];
    assert Path(step, [Draw]) by {
      assert Taken(step, [Draw], 0);
    }
    PathJoin(upTo, told, step, [Draw]);
    states, acts, i := upTo + step[1..], told + [Draw], |told|;
  }

  /** The handshake holds back show_bmp only: what bmp_255 draws stays clear of the exposures exactly if there is at most one
      base layer. */
  lemma BaseHeldBackIff(queue: seq<Kind>, base: nat)
    requires Cycles(queue, Open) && Lights(queue) > 0
    ensures HeldBack(queue, base) <==> base <= 1
  {
    if base <= 1 {
      forall states, acts, i: nat | Run(states, acts, queue, base) ensures !DrawnInExposure(states, acts, i) {
        OneBaseLayer(states, acts, queue, base, i);
      }
    } else {
      var states, acts, i := DrawsIntoExposure(queue, base);
    }
  }
}
